/** Every run of the binder driver's reference machine. Transactions and buffers, which take and give
    back local references and post other work, are the environment's steps. */
module BinderRuns {
  import opened Common
  import opened BinderState
  import opened BinderInvariant
  import opened BinderSteps
  import opened BinderRelease
  import opened BinderNotices

  datatype Step =
    | AddProc(context: nat, euid: nat)
    | AddThread(proc: ProcId, tid: Tid)
    | AddNode(proc: ProcId, ptr: nat, cookie: nat)
    | BecomeManager(proc: ProcId, ptr: nat, cookie: nat)
    | Hand(proc: ProcId, node: NodeId, strong: bool, target: Option<(ProcId, Tid)>, free: nat)
    | UpdateRef(proc: ProcId, desc: nat, increment: bool, strong: bool)
    | TakeLocal(node: NodeId, strong: bool, target: Option<(ProcId, Tid)>)
    | GiveLocal(node: NodeId, strong: bool)
    | Post(list: WorkList, tag: int)
    | Read(list: WorkList)
    | Acknowledge(proc: ProcId, ptr: nat, cookie: nat, strong: bool)
    | ThreadExit(proc: ProcId, tid: Tid)
    | ProcExit(proc: ProcId, tids: seq<Tid>, descs: seq<nat>)

  /** What the caller of each operation grants. */
  ghost predicate Enabled(s: State, step: Step) {
    match step
    case AddNode(p, _, _) => p in s.procs
    case BecomeManager(p, _, _) => p in s.procs
    case Hand(p, node, _, target, free) =>
      && node in s.nodes && TargetOk(s, node, target)
      && IsLowestFree(s, p, if IsContextManager(s, node) then 0 else 1, free)
    case TakeLocal(node, _, target) => TargetOk(s, node, target)
    case Read(l) => l in s.queues && s.queues[l] != []
    case ProcExit(p, tids, descs) => All(s, p, tids, descs)
    case _ => true
  }

  function OrSame(s: State, r: Result<State>): State {
    if r.Ok? then r.value else s
  }

  /** The processes' contexts exist. */
  ghost predicate Known(s: State) {
    forall p {:trigger p in s.procs} :: p in s.procs ==> s.procs[p].context in s.contexts
  }

  ghost function Next(s: State, step: Step): State
    requires Inv(s) && Known(s) && Enabled(s, step)
  {
    match step
    case AddProc(context, euid) => NewProc(s, context, euid).0
    case AddThread(p, t) => NewThread(s, p, t)
    case AddNode(p, ptr, cookie) => NewNode(s, p, ptr, cookie).0
    case BecomeManager(p, ptr, cookie) => OrSame(s, SetContextManager(s, p, ptr, cookie))
    case Hand(p, node, strong, target, free) => IncRefForNode(s, p, node, strong, target, free).0
    case UpdateRef(p, desc, increment, strong) => OrSame(s, UpdateRefForHandle(s, p, desc, increment, strong))
    case TakeLocal(node, strong, target) => OrSame(s, IncNode(s, node, strong, false, target))
    case GiveLocal(node, strong) => DecNode(s, node, strong, false)
    case Post(l, tag) => Enqueue(s, l, OtherWork(tag))
    case Read(l) => ReadFront(s, l).0
    case Acknowledge(p, ptr, cookie, strong) => Done(s, p, ptr, cookie, strong)
    case ThreadExit(p, t) => ThreadRelease(s, p, t)
    case ProcExit(p, tids, descs) => ReleaseProc(s, p, tids, descs)
  }

  lemma InvNames(s: State)
    requires Inv(s)
    ensures forall k {:trigger k in s.owned} :: k in s.owned ==> s.owned[k] in s.nodes
    ensures forall k {:trigger k in s.handles} :: k in s.handles ==> (k.0, s.handles[k]) in s.refs
    ensures forall n {:trigger n in s.nodes} :: n in s.nodes ==> n <= s.nextId
  {
  }

  lemma NextInv(s: State, step: Step)
    requires Inv(s) && Known(s) && Enabled(s, step)
    ensures Inv(Next(s, step))
  {
    hide Inv, NewProc, NewThread, NewNode, SetContextManager, IncRefForNode, UpdateRefForHandle, IncNode, DecNode,
         Enqueue,
         ReadFront, Done, ThreadRelease, ReleaseProc;
    InvNames(s);
    match step
    case AddProc(context, euid) => NewProcInv(s, context, euid);
    case AddThread(p, t) => NewThreadInv(s, p, t);
    case AddNode(p, ptr, cookie) => NewNodeInv(s, p, ptr, cookie);
    case BecomeManager(p, ptr, cookie) =>
      if SetContextManager(s, p, ptr, cookie).Ok? {
        ManagerInv(s, p, ptr, cookie);
      }
    case Hand(p, node, strong, target, free) => IncRefForNodeInv(s, p, node, strong, target, free);
    case UpdateRef(p, desc, increment, strong) =>
      if UpdateRefForHandle(s, p, desc, increment, strong).Ok? {
        UpdateRefInv(s, p, desc, increment, strong);
      }
    case TakeLocal(node, strong, target) =>
      if IncNode(s, node, strong, false, target).Ok? {
        LocalIncInv(s, node, strong, target);
      }
    case GiveLocal(node, strong) => LocalDecInv(s, node, strong);
    case Post(l, tag) => OtherWorkInv(s, l, tag);
    case Read(l) => ReadInv(s, l);
    case Acknowledge(p, ptr, cookie, strong) => DoneInv(s, p, ptr, cookie, strong);
    case ThreadExit(p, t) => ThreadReleaseInv(s, p, t);
    case ProcExit(p, tids, descs) => ReleaseProcInv(s, p, tids, descs);
  }

  /** A thread leaves only with settled nodes in its queue. */
  ghost predicate Quiet(s: State, step: Step) {
    step.ThreadExit? ==>
      forall n {:trigger n in s.nodes} ::
        n in s.nodes && s.nodes[n].workQueued == Some(ThreadList(step.proc, step.tid)) ==> Settled(s.nodes[n])
  }

  /** A step loses no release exactly when it is quiet. */
  lemma NextHeard(s: State, step: Step)
    requires Inv(s) && Known(s) && Lossless(s) && Enabled(s, step)
    ensures Lossless(Next(s, step)) <==> Quiet(s, step)
  {
    hide SetContextManager, IncRefForNode, UpdateRefForHandle, IncNode, DecNode, ReadFront, Done, Inv, Heard,
         ThreadRelease, ReleaseProc,
         All, Settled;
    InvNames(s);
    match step
    case AddProc(_, _) =>
    case AddThread(_, _) =>
    case AddNode(p, ptr, cookie) => NewNodeHeard(s, p, ptr, cookie);
    case BecomeManager(p, ptr, cookie) =>
      if SetContextManager(s, p, ptr, cookie).Ok? {
        ManagerHeard(s, p, ptr, cookie);
      }
    case Hand(p, node, strong, target, free) => IncRefForNodeHeard(s, p, node, strong, target, free);
    case UpdateRef(p, desc, increment, strong) =>
      if UpdateRefForHandle(s, p, desc, increment, strong).Ok? {
        UpdateRefHeard(s, p, desc, increment, strong);
      }
    case TakeLocal(node, strong, target) =>
      if IncNode(s, node, strong, false, target).Ok? {
        IncNodeHeard(s, node, strong, false, target);
      }
    case GiveLocal(node, strong) => DecNodeHeardToo(s, node, strong);
    case Post(_, _) =>
    case Read(l) => ReadHeard(s, l);
    case Acknowledge(p, ptr, cookie, strong) => DoneHeard(s, p, ptr, cookie, strong);
    case ThreadExit(p, t) => ThreadExitLossless(s, p, t);
    case ProcExit(p, tids, descs) => ProcExitLossless(s, p, tids, descs);
  }

  lemma NewNodeHeard(s: State, p: ProcId, ptr: nat, cookie: nat)
    requires Lossless(s) && p in s.procs
    ensures Lossless(NewNode(s, p, ptr, cookie).0)
  {
  }

  lemma DecNodeHeardToo(s: State, id: NodeId, strong: bool)
    requires Lossless(s)
    ensures Lossless(DecNode(s, id, strong, false))
  {
    DecNodeHeard(s, id, strong, false);
  }

  // ---- what the owners hear ----

  /** The driver as it is, and all it has let each node's owner know. */
  datatype Event = Said(command: Command) | Granted
  datatype Machine = Machine(state: State, log: map<NodeId, seq<Event>>)

  function LogOf(m: Machine, n: NodeId): seq<Event> {
    if n in m.log then m.log[n] else []
  }

  function AsEvents(cs: seq<Command>): seq<Event> {
    seq(|cs|, i requires 0 <= i < |cs| => Said(cs[i]))
  }

  /** A context manager holds its node from the start, without being told. */
  function Heed(v: View, e: Event): Option<View> {
    match e
    case Granted => Some(View(true, true))
    case Said(c) => if Legal(v, c) then Some(Told1(v, c)) else None
  }

  /** What an owner believes after all it was let know, if that was legal throughout. */
  function Believed(log: seq<Event>): Option<View> {
    if log == [] then Some(View(false, false))
    else
      var v := Believed(log[..|log| - 1]);
      if v.None? then None else Heed(v.value, log[|log| - 1])
  }

  /** What a step lets the owner of a node know. */
  function News(s: State, step: Step): (NodeId, seq<Event>) {
    match step
    case Read(l) =>
      if l in s.queues && s.queues[l] != [] && s.queues[l][0].NodeWork? && s.queues[l][0].node in s.nodes
      then (s.queues[l][0].node, AsEvents(Commands(s.nodes[s.queues[l][0].node])))
      else (0, [])
    case BecomeManager(p, ptr, cookie) =>
      if p in s.procs && s.procs[p].context in s.contexts && ((p, ptr) in s.owned ==> s.owned[(p, ptr)] in s.nodes)
         && SetContextManager(s, p, ptr, cookie).Ok?
      then (NewNode(s, p, ptr, cookie).1, [Granted])
      else (0, [])
    case _ => (0, [])
  }

  ghost function Advance(m: Machine, step: Step): Machine
    requires Inv(m.state) && Known(m.state) && Enabled(m.state, step)
  {
    var (n, events) := News(m.state, step);
    Machine(Next(m.state, step), m.log[n := LogOf(m, n) + events])
  }

  /** The owner of every node believes what the driver thinks it does. */
  ghost predicate Agreed(m: Machine) {
    && (forall n {:trigger LogOf(m, n)} :: Believed(LogOf(m, n)).Some?)
    && (forall n {:trigger n in m.state.nodes} :: n in m.state.nodes ==>
          Believed(LogOf(m, n)) == Some(View(m.state.nodes[n].hasWeak, m.state.nodes[n].hasStrong)))
    && (forall n {:trigger LogOf(m, n)} :: n > m.state.nextId ==> LogOf(m, n) == [])
  }

  /** Nothing is added but threads, and no node that stays changes its owner's view. */
  ghost predicate Steady(s: State, t: State) {
    && t.contexts.Keys == s.contexts.Keys && t.nextId == s.nextId
    && (forall p {:trigger p in t.procs} :: p in t.procs ==> p in s.procs && t.procs[p] == s.procs[p])
    && (forall n {:trigger n in t.nodes} :: n in t.nodes ==>
          n in s.nodes && t.nodes[n].hasStrong == s.nodes[n].hasStrong && t.nodes[n].hasWeak == s.nodes[n].hasWeak)
  }

  lemma DecNodeSteady(s: State, id: NodeId, strong: bool, internal: bool)
    ensures Steady(s, DecNode(s, id, strong, internal))
  {
    if id in s.nodes {
      hide DecNode, DropNode;
      DecNodeShape(s, id, strong, internal);
    }
  }

  lemma IncNodeSteady(s: State, id: NodeId, strong: bool, internal: bool, target: Option<(ProcId, Tid)>)
    requires IncNode(s, id, strong, internal, target).Ok?
    ensures Steady(s, IncNode(s, id, strong, internal, target).value)
  {
    assert id in s.nodes;
    hide IncNode;
    IncNodeShape(s, id, strong, internal, target);
  }

  lemma CleanupSteady(s: State, p: ProcId, desc: nat)
    ensures Steady(s, CleanupRef(s, p, desc))
  {
    hide DecNode;
    if (p, desc) in s.refs {
      var r := s.refs[(p, desc)];
      DecNodeSteady(s.(refs := s.refs - {(p, desc)}, handles := s.handles - {(p, r.node)}), r.node, true, true);
      DecNodeSteady(Detached(s, p, desc), r.node, false, true);
    }
  }

  lemma DecRefSteady(s: State, p: ProcId, desc: nat, strong: bool)
    requires DecRef(s, p, desc, strong).Ok?
    ensures Steady(s, DecRef(s, p, desc, strong).value)
  {
    hide DecNode, CleanupRef;
    var r := s.refs[(p, desc)];
    if (if strong then r.strong else r.weak) != 0 {
      var r' := if strong then r.(strong := r.strong - 1) else r.(weak := r.weak - 1);
      var t := s.(refs := s.refs[(p, desc) := r']);
      DecNodeSteady(t, r.node, true, true);
      CleanupSteady(if strong && r'.strong == 0 then DecNode(t, r.node, true, true) else t, p, desc);
    }
  }

  lemma IncRefSteady(s: State, p: ProcId, desc: nat, strong: bool, target: Option<(ProcId, Tid)>)
    requires (p, desc) in s.refs && IncRef(s, p, desc, strong, target).Ok?
    ensures Steady(s, IncRef(s, p, desc, strong, target).value)
  {
    hide IncNode;
    var r := s.refs[(p, desc)];
    if (if strong then r.strong else r.weak) == 0 {
      IncNodeSteady(s, r.node, strong, true, target);
    }
  }

  lemma AddRefSteady(s: State, p: ProcId, node: NodeId, desc: nat)
    ensures Steady(s, AddRef(s, p, node, desc))
  {
  }

  lemma HandSteady(s: State, p: ProcId, node: NodeId, strong: bool, target: Option<(ProcId, Tid)>, free: nat)
    requires (p, node) in s.handles ==> (p, s.handles[(p, node)]) in s.refs
    ensures Steady(s, IncRefForNode(s, p, node, strong, target, free).0)
  {
    var t := AddRef(s, p, node, free);
    assert (p, free) in t.refs;
    hide IncRef, CleanupRef, Steady, AddRef;
    SteadySelf(s);
    if p !in s.procs {
    } else if (p, node) in s.handles {
      if IncRef(s, p, s.handles[(p, node)], strong, target).Ok? {
        IncRefSteady(s, p, s.handles[(p, node)], strong, target);
      }
    } else {
      AddRefSteady(s, p, node, free);
      if node in s.nodes {
        if IncRef(t, p, free, strong, target).Ok? {
          IncRefSteady(t, p, free, strong, target);
          SteadyTwice(s, t, IncRef(t, p, free, strong, target).value);
        } else {
          CleanupSteady(t, p, free);
          SteadyTwice(s, t, CleanupRef(t, p, free));
        }
      }
    }
  }

  lemma UpdateSteady(s: State, p: ProcId, desc: nat, increment: bool, strong: bool)
    requires UpdateRefForHandle(s, p, desc, increment, strong).Ok?
    ensures Steady(s, UpdateRefForHandle(s, p, desc, increment, strong).value)
  {
    hide IncRef, DecRef;
    if increment {
      IncRefSteady(s, p, desc, strong, None);
    } else {
      DecRefSteady(s, p, desc, strong);
    }
  }

  lemma DoneSteady(s: State, p: ProcId, ptr: nat, cookie: nat, strong: bool)
    ensures Steady(s, Done(s, p, ptr, cookie, strong))
  {
    hide DecNode;
    if (p, ptr) in s.owned && s.owned[(p, ptr)] in s.nodes {
      var id := s.owned[(p, ptr)];
      var n := s.nodes[id];
      DecNodeSteady(SetNode(s, id, if strong then n.(pendingStrong := false) else n.(pendingWeak := false)), id, strong,
          false);
    }
  }

  lemma ThreadReleaseSteady(s: State, p: ProcId, t: Tid)
    ensures Steady(s, ThreadRelease(s, p, t))
  {
  }

  lemma {:induction false} ThreadsReleasedSteady(s: State, p: ProcId, tids: seq<Tid>)
    ensures Steady(s, ThreadsReleased(s, p, tids))
  {
    if tids != [] {
      hide ThreadRelease;
      var last := |tids| - 1;
      ThreadsReleasedSteady(s, p, tids[..last]);
      ThreadReleaseSteady(ThreadsReleased(s, p, tids[..last]), p, tids[last]);
    }
  }

  lemma {:induction false} RefsReleasedSteady(s: State, p: ProcId, descs: seq<nat>)
    ensures Steady(s, RefsReleased(s, p, descs))
  {
    if descs != [] {
      hide CleanupRef;
      var last := |descs| - 1;
      RefsReleasedSteady(s, p, descs[..last]);
      CleanupSteady(RefsReleased(s, p, descs[..last]), p, descs[last]);
    }
  }

  lemma NodesReleasedSteady(s: State, p: ProcId)
    ensures Steady(s, NodesReleased(s, p))
  {
  }

  lemma SteadySelf(s: State)
    ensures Steady(s, s)
  {
  }

  lemma SteadyTwice(a: State, b: State, c: State)
    requires Steady(a, b) && Steady(b, c)
    ensures Steady(a, c)
  {
  }

  lemma ManagerReleasedSteady(s: State, p: ProcId)
    requires p in s.procs
    ensures Steady(s, ManagerReleased(s, p))
  {
  }

  lemma EndSteady(s: State, p: ProcId)
    ensures var c := if ProcList(p) in s.queues then Forgotten(s, s.queues[ProcList(p)]) else s;
            Steady(s, c.(queues := c.queues - {ProcList(p)}, procs := c.procs - {p}))
  {
  }

  lemma ReleaseProcSteady(s: State, p: ProcId, tids: seq<Tid>, descs: seq<nat>)
    ensures Steady(s, ReleaseProc(s, p, tids, descs))
  {
    hide ThreadsReleased, NodesReleased, RefsReleased, ManagerReleased, Forgotten, Steady;
    SteadySelf(s);
    if p in s.procs {
      var m := ManagerReleased(s, p);
      ManagerReleasedSteady(s, p);
      var a := ThreadsReleased(m, p, tids);
      var b := NodesReleased(a, p);
      var c := RefsReleased(b, p, descs);
      var d := ReleaseProc(s, p, tids, descs);
      ThreadsReleasedSteady(m, p, tids);
      NodesReleasedSteady(a, p);
      RefsReleasedSteady(b, p, descs);
      EndSteady(c, p);
      SteadyTwice(s, m, a);
      SteadyTwice(s, a, b);
      SteadyTwice(s, b, c);
      SteadyTwice(s, c, d);
    }
  }

  /** All steps but these four. */
  lemma NextSteady(s: State, step: Step)
    requires Inv(s) && Known(s) && Enabled(s, step)
    requires !step.AddProc? && !step.AddNode? && !step.BecomeManager? && !step.Read?
    ensures Steady(s, Next(s, step))
  {
    hide IncRefForNode, UpdateRefForHandle, IncNode, DecNode, Done, ThreadRelease, ReleaseProc, Inv;
    InvNames(s);
    match step
    case AddThread(p, t) =>
    case Hand(p, node, strong, target, free) => HandSteady(s, p, node, strong, target, free);
    case UpdateRef(p, desc, increment, strong) =>
      if UpdateRefForHandle(s, p, desc, increment, strong).Ok? {
        UpdateSteady(s, p, desc, increment, strong);
      }
    case TakeLocal(node, strong, target) =>
      if IncNode(s, node, strong, false, target).Ok? {
        IncNodeSteady(s, node, strong, false, target);
      }
    case GiveLocal(node, strong) => DecNodeSteady(s, node, strong, false);
    case Post(_, _) =>
    case Acknowledge(p, ptr, cookie, strong) => DoneSteady(s, p, ptr, cookie, strong);
    case ThreadExit(p, t) => ThreadReleaseSteady(s, p, t);
    case ProcExit(p, tids, descs) => ReleaseProcSteady(s, p, tids, descs);
  }

  // ---- one step ----

  /** The view the driver has of an owner's beliefs; a node not yet made is not believed held. */
  ghost predicate Shows(s: State, t: State, n: NodeId, v: View) {
    && s.nextId <= t.nextId && n <= t.nextId
    && (forall k {:trigger k in t.nodes} :: k in t.nodes && k != n ==>
          if k in s.nodes then t.nodes[k].hasStrong == s.nodes[k].hasStrong && t.nodes[k].hasWeak == s.nodes[k].hasWeak
          else k > s.nextId && !t.nodes[k].hasStrong && !t.nodes[k].hasWeak)
    && (n in t.nodes ==> v == View(t.nodes[n].hasWeak, t.nodes[n].hasStrong))
  }

  /** Letting one owner know something keeps all in agreement if it then believes what is so. */
  lemma AgreedAfter(m: Machine, t: State, n: NodeId, events: seq<Event>, v: View)
    requires Agreed(m) && Shows(m.state, t, n, v) && Believed(LogOf(m, n) + events) == Some(v)
    ensures Agreed(Machine(t, m.log[n := LogOf(m, n) + events]))
  {
    var m' := Machine(t, m.log[n := LogOf(m, n) + events]);
    assert LogOf(m', n) == LogOf(m, n) + events;
    forall k | k != n ensures LogOf(m', k) == LogOf(m, k) {
    }
    forall k | k in t.nodes && k != n
      ensures Believed(LogOf(m', k)) == Some(View(t.nodes[k].hasWeak, t.nodes[k].hasStrong))
    {
      if k !in m.state.nodes {
        assert LogOf(m, k) == [];
      }
    }
  }

  lemma AgreedQuietly(m: Machine, t: State)
    requires Agreed(m) && Inv(m.state) && m.state.nextId <= t.nextId
    requires forall k {:trigger k in t.nodes} :: k in t.nodes ==>
               if k in m.state.nodes
                   then t.nodes[k].hasStrong == m.state.nodes[k].hasStrong
                       && t.nodes[k].hasWeak == m.state.nodes[k].hasWeak
               else k > m.state.nextId && !t.nodes[k].hasStrong && !t.nodes[k].hasWeak
    ensures Agreed(Machine(t, m.log[0 := LogOf(m, 0) + []]))
  {
    InvNames(m.state);
    hide Inv;
    assert LogOf(m, 0) + [] == LogOf(m, 0);
    AgreedAfter(m, t, 0, [], Believed(LogOf(m, 0)).value);
  }

  lemma {:induction false} BelievedMore(log: seq<Event>, v: View, cs: seq<Command>)
    requires Believed(log) == Some(v) && Replay(v, cs).Some?
    ensures Believed(log + AsEvents(cs)) == Replay(v, cs)
    decreases |cs|
  {
    if cs == [] {
      assert log + AsEvents(cs) == log;
    } else {
      var more := log + [Said(cs[0])];
      assert more[..|more| - 1] == log;
      BelievedMore(more, Told1(v, cs[0]), cs[1..]);
      assert log + AsEvents(cs) == more + AsEvents(cs[1..]);
    }
  }

  lemma ReadShows(s: State, l: WorkList)
    requires Inv(s) && l in s.queues && s.queues[l] != [] && s.queues[l][0].NodeWork?
    ensures var id := s.queues[l][0].node;
            && id in s.nodes && (s.nodes[id].hasStrong ==> s.nodes[id].hasWeak)
            && Shows(s, ReadFront(s, l).0, id, View(WeakNow(s.nodes[id]), StrongNow(s.nodes[id])))
  {
    FrontIsNamed(s, l);
    InvNames(s);
    ViewsImply(s, s.queues[l][0].node);
    ToldKeeps(s.nodes[s.queues[l][0].node]);
    hide Inv, Told, Commands, WeakNow, StrongNow;
  }

  lemma ReadAgreed(m: Machine, l: WorkList)
    requires Agreed(m) && Inv(m.state) && l in m.state.queues && m.state.queues[l] != []
    ensures var (n, events) := News(m.state, Read(l));
            Agreed(Machine(ReadFront(m.state, l).0, m.log[n := LogOf(m, n) + events]))
  {
    var s := m.state;
    var w, t := s.queues[l][0], ReadFront(s, l).0;
    if w.NodeWork? {
      ReadShows(s, l);
      hide Inv, Commands, ReadFront, WeakNow, StrongNow, Shows, Replay;
      var node := s.nodes[w.node];
      CommandsReplay(node);
      BelievedMore(LogOf(m, w.node), View(node.hasWeak, node.hasStrong), Commands(node));
      AgreedAfter(m, t, w.node, AsEvents(Commands(node)), View(WeakNow(node), StrongNow(node)));
    } else {
      InvNames(s);
      AgreedQuietly(m, t);
    }
  }

  lemma ManagerAgreed(m: Machine, p: ProcId, ptr: nat, cookie: nat)
    requires Agreed(m) && Inv(m.state) && Known(m.state) && p in m.state.procs
    ensures var (n, events) := News(m.state, BecomeManager(p, ptr, cookie));
            Agreed(Machine(Next(m.state, BecomeManager(p, ptr, cookie)), m.log[n := LogOf(m, n) + events]))
  {
    var s, t := m.state, Next(m.state, BecomeManager(p, ptr, cookie));
    InvNames(s);
    hide Inv;
    if SetContextManager(s, p, ptr, cookie).Ok? {
      var n := NewNode(s, p, ptr, cookie).1;
      var log := LogOf(m, n) + [Granted];
      assert log[..|log| - 1] == LogOf(m, n);
      AgreedAfter(m, t, n, [Granted], View(true, true));
    } else {
      AgreedQuietly(m, s);
    }
  }

  lemma AdvanceAgreed(m: Machine, step: Step)
    requires Agreed(m) && Inv(m.state) && Known(m.state) && Enabled(m.state, step)
    ensures Agreed(Advance(m, step))
  {
    if step.Read? {
      ReadAgreed(m, step.list);
    } else if step.BecomeManager? {
      ManagerAgreed(m, step.proc, step.ptr, step.cookie);
    } else if step.AddProc? || step.AddNode? {
      InvNames(m.state);
      AgreedQuietly(m, Next(m.state, step));
    } else {
      NextSteady(m.state, step);
      AgreedQuietly(m, Next(m.state, step));
    }
  }

  lemma SteadyKnown(s: State, t: State)
    requires Known(s) && Steady(s, t)
    ensures Known(t)
  {
    forall p | p in t.procs ensures t.procs[p].context in t.contexts {
      assert t.procs[p].context in s.contexts.Keys;
    }
  }

  lemma NextKnown(s: State, step: Step)
    requires Inv(s) && Known(s) && Enabled(s, step)
    ensures Known(Next(s, step))
  {
    hide Inv, Steady;
    if !step.AddProc? && !step.AddNode? && !step.BecomeManager? && !step.Read? {
      NextSteady(s, step);
      SteadyKnown(s, Next(s, step));
    }
  }

  // ---- runs ----

  const START := Machine(State(map[], map[], map[], map[], map[], map[], map[], 0), map[])

  /** The machine after a run, if each step was enabled: the redundant state agrees, and every owner has
      been told legally and believes what the driver thinks it does. */
  ghost function Exec(steps: seq<Step>): (r: Option<Machine>)
    ensures r.Some? ==> Inv(r.value.state) && Known(r.value.state) && Agreed(r.value)
  {
    if steps == [] then
      StartIsGood();
      Some(START)
    else
      var step, m := steps[|steps| - 1], Exec(steps[..|steps| - 1]);
      if m.None? || !Enabled(m.value.state, step) then None
      else
        NextInv(m.value.state, step);
        NextKnown(m.value.state, step);
        AdvanceAgreed(m.value, step);
        Some(Advance(m.value, step))
  }

  /** A run goes on by any enabled step. */
  lemma ExecMore(steps: seq<Step>, step: Step)
    requires Exec(steps).Some? && Enabled(Exec(steps).value.state, step)
    ensures Exec(steps + [step]).Some? && Exec(steps + [step]).value.state == Next(Exec(steps).value.state, step)
  {
    hide Inv, Known, Agreed, Enabled, Next, News;
    assert (steps + [step])[..|steps|] == steps;
  }

  lemma StartIsGood()
    ensures Inv(START.state) && Known(START.state) && Agreed(START)
  {
  }

  /** Every thread of the run that left did so quietly. */
  ghost predicate QuietRun(steps: seq<Step>) {
    steps == [] ||
    var last := |steps| - 1;
    QuietRun(steps[..last]) && (Exec(steps[..last]).Some? ==> Quiet(Exec(steps[..last]).value.state, steps[last]))
  }

  lemma {:induction false} PrefixRuns(steps: seq<Step>, i: nat)
    requires Exec(steps).Some? && i <= |steps|
    ensures Exec(steps[..i]).Some? && (QuietRun(steps) ==> QuietRun(steps[..i]))
  {
    hide Inv, Known, Agreed, Enabled, Advance, Quiet;
    if i < |steps| {
      var front := steps[..|steps| - 1];
      PrefixRuns(front, i);
      assert front[..i] == steps[..i];
    } else {
      assert steps[..i] == steps;
    }
  }

  /** No release is lost in any run whose threads leave quietly. */
  lemma {:induction false} NoReleaseLost(steps: seq<Step>)
    requires Exec(steps).Some? && QuietRun(steps)
    ensures Lossless(Exec(steps).value.state)
  {
    hide Inv, Known, Agreed, Enabled, Quiet, Heard, Next;
    if steps != [] {
      var last := |steps| - 1;
      NoReleaseLost(steps[..last]);
      NextHeard(Exec(steps[..last]).value.state, steps[last]);
    }
  }

  /** All states on the way of a run have what the owners still have to hear queued for them. */
  ghost predicate LosslessOnTheWay(steps: seq<Step>) {
    forall i {:trigger Exec(steps[..i])} ::
      0 <= i <= |steps| && Exec(steps[..i]).Some? ==> Lossless(Exec(steps[..i]).value.state)
  }

  /** A run never loses a release exactly when its threads leave quietly. */
  lemma LosslessThroughout(steps: seq<Step>)
    requires Exec(steps).Some?
    ensures LosslessOnTheWay(steps) <==> QuietRun(steps)
  {
    hide Inv, Known, Agreed, Exec, QuietRun, Lossless;
    if LosslessOnTheWay(steps) {
      QuietIfLossless(steps);
    }
    if QuietRun(steps) {
      forall i | 0 <= i <= |steps| ensures Exec(steps[..i]).Some? && Lossless(Exec(steps[..i]).value.state) {
        PrefixRuns(steps, i);
        NoReleaseLost(steps[..i]);
      }
    }
  }

  lemma {:induction false} QuietIfLossless(steps: seq<Step>)
    requires Exec(steps).Some? && LosslessOnTheWay(steps)
    ensures QuietRun(steps)
  {
    hide Inv, Known, Agreed, Enabled, Quiet, Lossless, Next;
    if steps != [] {
      var last := |steps| - 1;
      var front := steps[..last];
      PrefixRuns(steps, last);
      forall i | 0 <= i <= |front| && Exec(front[..i]).Some? ensures Lossless(Exec(front[..i]).value.state) {
        assert front[..i] == steps[..i];
      }
      QuietIfLossless(front);
      assert steps[..|steps|] == steps && front[..last] == front;
      NextHeard(Exec(front).value.state, steps[last]);
    }
  }

  /** The internal strong count a handle's node is about to lose is there: it never saturates. */
  lemma NeverSaturates(steps: seq<Step>, p: ProcId, desc: nat)
    requires Exec(steps).Some?
    ensures var s := Exec(steps).value.state;
            (p, desc) in s.refs && s.refs[(p, desc)].strong > 0 ==>
              s.refs[(p, desc)].node in s.nodes && s.nodes[s.refs[(p, desc)].node].internalStrong > 0
  {
    var s := Exec(steps).value.state;
    if (p, desc) in s.refs && s.refs[(p, desc)].strong > 0 {
      RefIsLive(s, p, desc);
      HolderOrNot(s, p, desc);
      assert (p, s.refs[(p, desc)].node) in Holders(s, s.refs[(p, desc)].node);
    }
  }
}
