/** A context's manager is never a node that is gone, as long as transactions and buffers give back only
    the local references they have taken. */
module BinderManager {
  import opened Common
  import opened BinderState
  import opened BinderInvariant
  import opened BinderSteps
  import opened BinderRelease
  import opened BinderNotices
  import opened BinderRuns

  // ---- local references, of either kind ----

  function Local(n: Node, strong: bool): nat {
    if strong then n.localStrong else n.localWeak
  }

  /** The owner has been told, and has not acknowledged yet. */
  predicate Pending(n: Node, strong: bool) {
    if strong then n.pendingStrong else n.pendingWeak
  }

  /** The owner believes the node held. */
  predicate Believes(n: Node, strong: bool) {
    if strong then n.hasStrong else n.hasWeak
  }

  /** What an owner has in a node: the same local counts, pending acknowledgements and view. */
  ghost predicate SameLocal(a: Node, b: Node) {
    && a.proc == b.proc && a.context == b.context && a.localStrong == b.localStrong && a.localWeak == b.localWeak
    && a.pendingStrong == b.pendingStrong && a.hasStrong == b.hasStrong
    && a.pendingWeak == b.pendingWeak && a.hasWeak == b.hasWeak
  }

  /** No local count changes, and no node that has one goes. */
  ghost predicate LocalsKept(s: State, t: State) {
    && t.contexts == s.contexts && t.procs == s.procs && t.nextId == s.nextId
    && (forall n {:trigger n in t.nodes} :: n in t.nodes ==> n in s.nodes && SameLocal(t.nodes[n], s.nodes[n]))
    && (forall n {:trigger n in s.nodes} :: n in s.nodes && s.nodes[n].localStrong + s.nodes[n].localWeak > 0 ==>
          n in t.nodes)
  }

  lemma KeptSelf(s: State)
    ensures LocalsKept(s, s)
  {
  }

  lemma KeptTwice(a: State, b: State, c: State)
    requires LocalsKept(a, b) && LocalsKept(b, c)
    ensures LocalsKept(a, c)
  {
  }

  /** Counting a node down comes after its counter is lowered, and only a node without local counts goes. */
  lemma DecNodeKept(s: State, id: NodeId, strong: bool, internal: bool)
    requires id in s.nodes
    ensures LocalsKept(SetNode(s, id, Lowered(s.nodes[id], strong, internal)), DecNode(s, id, strong, internal))
  {
    hide DecNode, DropNode;
    DecNodeShape(s, id, strong, internal);
  }

  lemma IncNodeKept(s: State, id: NodeId, strong: bool, internal: bool, target: Option<(ProcId, Tid)>)
    requires id in s.nodes && IncNode(s, id, strong, internal, target).Ok?
    ensures LocalsKept(SetNode(s, id, Raised(s.nodes[id], strong, internal)),
            IncNode(s, id, strong, internal, target).value)
  {
    hide IncNode;
    IncNodeShape(s, id, strong, internal, target);
  }

  lemma DecInternalKept(s: State, id: NodeId, strong: bool)
    ensures LocalsKept(s, DecNode(s, id, strong, true))
  {
    if id in s.nodes {
      hide DecNode;
      DecNodeKept(s, id, strong, true);
    }
  }

  lemma IncInternalKept(s: State, id: NodeId, strong: bool, target: Option<(ProcId, Tid)>)
    requires IncNode(s, id, strong, true, target).Ok?
    ensures LocalsKept(s, IncNode(s, id, strong, true, target).value)
  {
    assert id in s.nodes;
    hide IncNode;
    IncNodeKept(s, id, strong, true, target);
  }

  lemma IncRefKept(s: State, p: ProcId, desc: nat, strong: bool, target: Option<(ProcId, Tid)>)
    requires (p, desc) in s.refs && IncRef(s, p, desc, strong, target).Ok?
    ensures LocalsKept(s, IncRef(s, p, desc, strong, target).value)
  {
    hide IncNode;
    var r := s.refs[(p, desc)];
    if (if strong then r.strong else r.weak) == 0 {
      IncInternalKept(s, r.node, strong, target);
    }
  }

  lemma DetachedKept(s: State, p: ProcId, desc: nat)
    requires (p, desc) in s.refs
    ensures LocalsKept(s, Detached(s, p, desc))
  {
    hide DecNode;
    var r := s.refs[(p, desc)];
    DecInternalKept(s.(refs := s.refs - {(p, desc)}, handles := s.handles - {(p, r.node)}), r.node, true);
  }

  lemma CleanupKept(s: State, p: ProcId, desc: nat)
    ensures LocalsKept(s, CleanupRef(s, p, desc))
  {
    hide DecNode, Detached, LocalsKept;
    KeptSelf(s);
    if (p, desc) in s.refs {
      var d, n := Detached(s, p, desc), s.refs[(p, desc)].node;
      DetachedKept(s, p, desc);
      DecInternalKept(d, n, false);
      KeptTwice(s, d, DecNode(d, n, false, true));
    }
  }

  lemma DecRefKept(s: State, p: ProcId, desc: nat, strong: bool)
    requires DecRef(s, p, desc, strong).Ok?
    ensures LocalsKept(s, DecRef(s, p, desc, strong).value)
  {
    hide DecNode, CleanupRef, LocalsKept;
    KeptSelf(s);
    var r := s.refs[(p, desc)];
    if (if strong then r.strong else r.weak) != 0 {
      var r' := if strong then r.(strong := r.strong - 1) else r.(weak := r.weak - 1);
      var t := s.(refs := s.refs[(p, desc) := r']);
      RefsEditedKept(s, t.refs);
      DecInternalKept(t, r.node, true);
      var u := if strong && r'.strong == 0 then DecNode(t, r.node, true, true) else t;
      if strong && r'.strong == 0 {
        KeptTwice(s, t, u);
      }
      CleanupKept(u, p, desc);
      KeptTwice(s, u, CleanupRef(u, p, desc));
    }
  }

  lemma RefsEditedKept(s: State, refs: map<(ProcId, nat), Ref>)
    ensures LocalsKept(s, s.(refs := refs))
  {
  }

  lemma AddRefKept(s: State, p: ProcId, node: NodeId, desc: nat)
    ensures LocalsKept(s, AddRef(s, p, node, desc))
  {
  }

  lemma HandKept(s: State, p: ProcId, node: NodeId, strong: bool, target: Option<(ProcId, Tid)>, free: nat)
    requires (p, node) in s.handles ==> (p, s.handles[(p, node)]) in s.refs
    ensures LocalsKept(s, IncRefForNode(s, p, node, strong, target, free).0)
  {
    var t := AddRef(s, p, node, free);
    assert (p, free) in t.refs;
    hide IncRef, CleanupRef, LocalsKept, AddRef;
    KeptSelf(s);
    if p !in s.procs {
    } else if (p, node) in s.handles {
      if IncRef(s, p, s.handles[(p, node)], strong, target).Ok? {
        IncRefKept(s, p, s.handles[(p, node)], strong, target);
      }
    } else {
      AddRefKept(s, p, node, free);
      if node in s.nodes {
        if IncRef(t, p, free, strong, target).Ok? {
          IncRefKept(t, p, free, strong, target);
          KeptTwice(s, t, IncRef(t, p, free, strong, target).value);
        } else {
          CleanupKept(t, p, free);
          KeptTwice(s, t, CleanupRef(t, p, free));
        }
      }
    }
  }

  lemma UpdateKept(s: State, p: ProcId, desc: nat, increment: bool, strong: bool)
    requires UpdateRefForHandle(s, p, desc, increment, strong).Ok?
    ensures LocalsKept(s, UpdateRefForHandle(s, p, desc, increment, strong).value)
  {
    hide IncRef, DecRef, LocalsKept;
    if increment {
      IncRefKept(s, p, desc, strong, None);
    } else {
      DecRefKept(s, p, desc, strong);
    }
  }

  lemma ThreadReleaseKept(s: State, p: ProcId, t: Tid)
    ensures LocalsKept(s, ThreadRelease(s, p, t))
  {
  }

  lemma {:induction false} ThreadsReleasedKept(s: State, p: ProcId, tids: seq<Tid>)
    ensures LocalsKept(s, ThreadsReleased(s, p, tids))
  {
    hide ThreadRelease, LocalsKept;
    KeptSelf(s);
    if tids != [] {
      var last := |tids| - 1;
      var u := ThreadsReleased(s, p, tids[..last]);
      ThreadsReleasedKept(s, p, tids[..last]);
      ThreadReleaseKept(u, p, tids[last]);
      KeptTwice(s, u, ThreadsReleased(s, p, tids));
    }
  }

  lemma {:induction false} RefsReleasedKept(s: State, p: ProcId, descs: seq<nat>)
    ensures LocalsKept(s, RefsReleased(s, p, descs))
  {
    hide CleanupRef, LocalsKept;
    KeptSelf(s);
    if descs != [] {
      var last := |descs| - 1;
      var u := RefsReleased(s, p, descs[..last]);
      RefsReleasedKept(s, p, descs[..last]);
      CleanupKept(u, p, descs[last]);
      KeptTwice(s, u, RefsReleased(s, p, descs));
    }
  }

  // ---- the invariant ----

  /** `n` is some context's manager. */
  ghost predicate Manages(s: State, n: NodeId) {
    exists c {:trigger s.contexts[c]} :: c in s.contexts && s.contexts[c].mgrNode == Some(n)
  }

  /** A node's local count is exactly what is taken of it, an acknowledgement it waits for and its being a manager. */
  ghost predicate Exact(s: State, n: NodeId, taken: int, strong: bool)
    requires n in s.nodes
  {
    && Local(s.nodes[n], strong) == taken + One(Pending(s.nodes[n], strong)) + One(Manages(s, n))
    && (Pending(s.nodes[n], strong) ==> Believes(s.nodes[n], strong))
  }

  /** So for every node that has an owner, other than the one that is leaving. */
  ghost predicate Backed(s: State, taken: NodeId -> int, strong: bool, leaving: Option<ProcId>) {
    forall n {:trigger n in s.nodes} :: n in s.nodes ==>
      taken(n) >= 0 && (s.nodes[n].proc.Some? && s.nodes[n].proc != leaving ==> Exact(s, n, taken(n), strong))
  }

  /** A manager is a node of a process of its context, which believes it held. */
  ghost predicate Seated(s: State, strong: bool, leaving: Option<ProcId>) {
    forall c {:trigger s.contexts[c]} :: c in s.contexts && s.contexts[c].mgrNode.Some? ==>
      var n := s.contexts[c].mgrNode.value;
      && n in s.nodes && s.nodes[n].proc.Some? && s.nodes[n].proc != leaving && s.nodes[n].context == c
      && Believes(s.nodes[n], strong)
  }

  /** A node is in its owner's context. */
  ghost predicate InContext(s: State) {
    forall n {:trigger n in s.nodes} :: n in s.nodes && s.nodes[n].proc.Some? && s.nodes[n].proc.value in s.procs ==>
      s.nodes[n].context == s.procs[s.nodes[n].proc.value].context
  }

  lemma KeptInContext(s: State, t: State)
    requires LocalsKept(s, t) && InContext(s)
    ensures InContext(t)
  {
  }

  lemma KeptSeated(s: State, t: State, taken: NodeId -> int, strong: bool, leaving: Option<ProcId>)
    requires LocalsKept(s, t) && Seated(s, strong, leaving) && Backed(s, taken, strong, leaving)
    ensures Seated(t, strong, leaving) && Backed(t, taken, strong, leaving)
  {
    forall n | n in t.nodes
      ensures taken(n) >= 0 && (t.nodes[n].proc.Some? && t.nodes[n].proc != leaving ==> Exact(t, n, taken(n), strong))
    {
      assert n in s.nodes;
      assert Manages(t, n) == Manages(s, n);
    }
    forall c | c in t.contexts && t.contexts[c].mgrNode.Some?
      ensures var n := t.contexts[c].mgrNode.value;
              && n in t.nodes && t.nodes[n].proc.Some? && t.nodes[n].proc != leaving && t.nodes[n].context == c
              && Believes(t.nodes[n], strong)
    {
      var n := s.contexts[c].mgrNode.value;
      assert n in s.nodes && Manages(s, n) && Exact(s, n, taken(n), strong);
    }
  }

  // ---- nodes stay in their owners' contexts ----

  lemma NodeSetInContext(s: State, id: NodeId, n: Node)
    requires InContext(s) && id in s.nodes && n.proc == s.nodes[id].proc && n.context == s.nodes[id].context
    ensures InContext(SetNode(s, id, n))
  {
  }

  lemma NewNodeInContext(s: State, p: ProcId, ptr: nat, cookie: nat)
    requires InContext(s) && p in s.procs
    ensures InContext(NewNode(s, p, ptr, cookie).0)
  {
  }

  lemma NewProcInContext(s: State, context: nat, euid: nat)
    requires Inv(s) && InContext(s)
    ensures InContext(NewProc(s, context, euid).0)
  {
    InvParts(s);
    hide Inv;
  }

  lemma ManagerInContext(s: State, p: ProcId, ptr: nat, cookie: nat)
    requires Known(s) && InContext(s) && p in s.procs && ((p, ptr) in s.owned ==> s.owned[(p, ptr)] in s.nodes)
    requires SetContextManager(s, p, ptr, cookie).Ok?
    ensures InContext(SetContextManager(s, p, ptr, cookie).value)
  {
    hide InContext;
    var (t, id) := NewNode(s, p, ptr, cookie);
    NewNodeInContext(s, p, ptr, cookie);
    var n := t.nodes[id];
    var m := n.(localWeak := n.localWeak + 1, localStrong := n.localStrong + 1, hasStrong := true, hasWeak := true);
    NodeSetInContext(t, id, m);
    ContextsInContext(SetNode(t, id, m), SetContextManager(s, p, ptr, cookie).value.contexts);
  }

  lemma ContextsInContext(s: State, contexts: map<nat, Context>)
    requires InContext(s)
    ensures InContext(s.(contexts := contexts))
  {
  }

  lemma ReadInContext(s: State, l: WorkList)
    requires InContext(s) && l in s.queues && s.queues[l] != []
    ensures InContext(ReadFront(s, l).0)
  {
  }

  lemma CountedInContext(s: State, id: NodeId, strong: bool)
    requires InContext(s)
    ensures InContext(DecNode(s, id, strong, false))
  {
    if id in s.nodes {
      hide DecNode, InContext, LocalsKept;
      var n := Lowered(s.nodes[id], strong, false);
      NodeSetInContext(s, id, n);
      DecNodeKept(s, id, strong, false);
      KeptInContext(SetNode(s, id, n), DecNode(s, id, strong, false));
    }
  }

  lemma TakenInContext(s: State, id: NodeId, strong: bool, target: Option<(ProcId, Tid)>)
    requires InContext(s) && IncNode(s, id, strong, false, target).Ok?
    ensures InContext(IncNode(s, id, strong, false, target).value)
  {
    assert id in s.nodes;
    hide IncNode, InContext, LocalsKept;
    var n := Raised(s.nodes[id], strong, false);
    NodeSetInContext(s, id, n);
    IncNodeKept(s, id, strong, false, target);
    KeptInContext(SetNode(s, id, n), IncNode(s, id, strong, false, target).value);
  }

  lemma DoneInContext(s: State, p: ProcId, ptr: nat, cookie: nat, strong: bool)
    requires InContext(s)
    ensures InContext(Done(s, p, ptr, cookie, strong))
  {
    hide DecNode, InContext;
    if (p, ptr) in s.owned && s.owned[(p, ptr)] in s.nodes {
      var id := s.owned[(p, ptr)];
      var n := s.nodes[id];
      var m := if strong then n.(pendingStrong := false) else n.(pendingWeak := false);
      NodeSetInContext(s, id, m);
      CountedInContext(SetNode(s, id, m), id, strong);
    }
  }

  lemma NodesReleasedInContext(s: State, p: ProcId)
    requires InContext(s)
    ensures InContext(NodesReleased(s, p))
  {
  }

  lemma EndInContext(s: State, p: ProcId)
    requires InContext(s)
    ensures var c := if ProcList(p) in s.queues then Forgotten(s, s.queues[ProcList(p)]) else s;
            InContext(c.(queues := c.queues - {ProcList(p)}, procs := c.procs - {p}))
  {
  }

  lemma ReleaseProcInContext(s: State, p: ProcId, tids: seq<Tid>, descs: seq<nat>)
    requires InContext(s)
    ensures InContext(ReleaseProc(s, p, tids, descs))
  {
    hide ThreadsReleased, NodesReleased, RefsReleased, Forgotten, InContext, LocalsKept;
    if p in s.procs {
      var m := ManagerReleased(s, p);
      ContextsInContext(s, m.contexts);
      var a := ThreadsReleased(m, p, tids);
      ThreadsReleasedKept(m, p, tids);
      KeptInContext(m, a);
      var b := NodesReleased(a, p);
      NodesReleasedInContext(a, p);
      var c := RefsReleased(b, p, descs);
      RefsReleasedKept(b, p, descs);
      KeptInContext(b, c);
      EndInContext(c, p);
    }
  }

  lemma NextInContext(s: State, step: Step)
    requires Inv(s) && Known(s) && Enabled(s, step) && InContext(s)
    ensures InContext(Next(s, step))
  {
    hide Inv, InContext, NewProc, NewNode, SetContextManager, IncRefForNode, UpdateRefForHandle, IncNode, DecNode,
         ReadFront, Done,
         ThreadRelease, ReleaseProc, LocalsKept;
    InvNames(s);
    match step
    case AddProc(context, euid) => NewProcInContext(s, context, euid);
    case AddThread(p, t) => QueuesKept(s, NewThread(s, p, t).queues); KeptInContext(s, Next(s, step));
    case AddNode(p, ptr, cookie) => NewNodeInContext(s, p, ptr, cookie);
    case BecomeManager(p, ptr, cookie) =>
      if SetContextManager(s, p, ptr, cookie).Ok? {
        ManagerInContext(s, p, ptr, cookie);
      }
    case Hand(p, node, strong, target, free) =>
      HandKept(s, p, node, strong, target, free);
      KeptInContext(s, Next(s, step));
    case UpdateRef(p, desc, increment, strong) =>
      if UpdateRefForHandle(s, p, desc, increment, strong).Ok? {
        UpdateKept(s, p, desc, increment, strong);
        KeptInContext(s, Next(s, step));
      }
    case TakeLocal(node, strong, target) =>
      if IncNode(s, node, strong, false, target).Ok? {
        TakenInContext(s, node, strong, target);
      }
    case GiveLocal(node, strong) => CountedInContext(s, node, strong);
    case Post(l, tag) => QueuesKept(s, Enqueue(s, l, OtherWork(tag)).queues); KeptInContext(s, Next(s, step));
    case Read(l) => ReadInContext(s, l);
    case Acknowledge(p, ptr, cookie, strong) => DoneInContext(s, p, ptr, cookie, strong);
    case ThreadExit(p, t) => ThreadReleaseKept(s, p, t); KeptInContext(s, Next(s, step));
    case ProcExit(p, tids, descs) => ReleaseProcInContext(s, p, tids, descs);
  }

  lemma QueuesKept(s: State, queues: map<WorkList, seq<Work>>)
    ensures LocalsKept(s, s.(queues := queues))
  {
  }

  /** In every run. */
  lemma {:induction false} RunInContext(steps: seq<Step>)
    requires Exec(steps).Some?
    ensures InContext(Exec(steps).value.state)
  {
    if steps != [] {
      hide Inv, Known, Agreed, Enabled, Next, InContext;
      var last := |steps| - 1;
      RunInContext(steps[..last]);
      NextInContext(Exec(steps[..last]).value.state, steps[last]);
    }
  }

  // ---- managers stay ----

  /** Nothing is taken of nodes not yet made. */
  ghost predicate Untaken(s: State, taken: NodeId -> int) {
    forall n: NodeId {:trigger taken(n)} :: n > s.nextId ==> taken(n) == 0
  }

  ghost predicate Held(s: State, taken: NodeId -> int, strong: bool, leaving: Option<ProcId>) {
    Backed(s, taken, strong, leaving) && Seated(s, strong, leaving)
  }

  /** One node's local references change, by as much as is taken of it. */
  lemma NodeSetHeld(s: State, id: NodeId, n: Node, taken: NodeId -> int, taken': NodeId -> int, strong: bool)
    requires Held(s, taken, strong, None)
    requires id in s.nodes && n.proc == s.nodes[id].proc && n.context == s.nodes[id].context
    requires taken'(id) >= 0 && forall k: NodeId {:trigger taken'(k)} :: k != id ==> taken'(k) == taken(k)
    requires n.proc.Some? ==>
               && Local(n, strong) - taken'(id) - One(Pending(n, strong))
                  == Local(s.nodes[id], strong) - taken(id) - One(Pending(s.nodes[id], strong))
               && (Pending(n, strong) ==> Believes(n, strong))
    requires Believes(s.nodes[id], strong) && Local(s.nodes[id], strong) > 0 ==> Believes(n, strong)
    ensures Held(SetNode(s, id, n), taken', strong, None)
  {
    var t := SetNode(s, id, n);
    forall k | k in t.nodes ensures taken'(k) >= 0 && (t.nodes[k].proc.Some? ==> Exact(t, k, taken'(k), strong)) {
      assert k in s.nodes;
      assert Manages(t, k) == Manages(s, k);
    }
    if Manages(s, id) {
      assert Exact(s, id, taken(id), strong) && Believes(s.nodes[id], strong);
    }
  }

  lemma NewProcHeld(s: State, context: nat, euid: nat, taken: NodeId -> int, strong: bool)
    requires Held(s, taken, strong, None)
    ensures Held(NewProc(s, context, euid).0, taken, strong, None)
  {
    var t := NewProc(s, context, euid).0;
    forall k | k in t.nodes && t.nodes[k].proc.Some? ensures Exact(t, k, taken(k), strong) {
      assert k in s.nodes;
      SameManages(s, t, k);
    }
  }

  lemma SameManages(s: State, t: State, n: NodeId)
    requires forall c {:trigger s.contexts[c]} {:trigger t.contexts[c]} ::
               (c in s.contexts && s.contexts[c].mgrNode == Some(n)) <==>
               (c in t.contexts && t.contexts[c].mgrNode == Some(n))
    ensures Manages(s, n) == Manages(t, n)
  {
  }

  lemma NewNodeHeld(s: State, p: ProcId, ptr: nat, cookie: nat, taken: NodeId -> int, strong: bool)
    requires Fresh(s) && Held(s, taken, strong, None) && Untaken(s, taken) && p in s.procs
    ensures Held(NewNode(s, p, ptr, cookie).0, taken, strong, None)
  {
    var (t, id) := NewNode(s, p, ptr, cookie);
    if (p, ptr) !in s.owned {
      assert id !in s.nodes && taken(id) == 0;
      assert !Manages(s, id);
      forall k | k in t.nodes ensures taken(k) >= 0 && (t.nodes[k].proc.Some? ==> Exact(t, k, taken(k), strong)) {
        assert Manages(t, k) == Manages(s, k);
        assert k != id ==> k in s.nodes;
      }
    }
  }

  /** A context without a manager gets a node of it for one, with a local reference of each kind for that. */
  lemma SeatHeld(s: State, c: nat, id: NodeId, uid: Option<nat>, taken: NodeId -> int, strong: bool)
    requires Held(s, taken, strong, None) && c in s.contexts && s.contexts[c].mgrNode.None?
    requires id in s.nodes && s.nodes[id].proc.Some? && s.nodes[id].context == c
    ensures var n := s.nodes[id];
            var t := SetNode(s, id,
                n.(localWeak := n.localWeak + 1, localStrong := n.localStrong + 1, hasStrong := true, hasWeak := true));
            Held(t.(contexts := t.contexts[c := Context(Some(id), uid)]), taken, strong, None)
  {
    hide Backed, Seated;
    SeatBacked(s, c, id, uid, taken, strong);
    SeatSeated(s, c, id, uid, strong);
  }

  lemma SeatBacked(s: State, c: nat, id: NodeId, uid: Option<nat>, taken: NodeId -> int, strong: bool)
    requires Backed(s, taken, strong, None) && Seated(s, strong, None) && c in s.contexts && s.contexts[c].mgrNode.None?
    requires id in s.nodes && s.nodes[id].proc.Some? && s.nodes[id].context == c
    ensures var n := s.nodes[id];
            var t := SetNode(s, id,
                n.(localWeak := n.localWeak + 1, localStrong := n.localStrong + 1, hasStrong := true, hasWeak := true));
            Backed(t.(contexts := t.contexts[c := Context(Some(id), uid)]), taken, strong, None)
  {
    var n := s.nodes[id];
    var m := n.(localWeak := n.localWeak + 1, localStrong := n.localStrong + 1, hasStrong := true, hasWeak := true);
    var t := SetNode(s, id, m).(contexts := s.contexts[c := Context(Some(id), uid)]);
    assert t.contexts[c].mgrNode == Some(id);
    assert !Manages(s, id);
    forall k | k in t.nodes ensures taken(k) >= 0 && (t.nodes[k].proc.Some? ==> Exact(t, k, taken(k), strong)) {
      assert k in s.nodes;
      if k != id {
        SameManages(s, t, k);
      }
    }
  }

  lemma SeatSeated(s: State, c: nat, id: NodeId, uid: Option<nat>, strong: bool)
    requires Seated(s, strong, None) && c in s.contexts && s.contexts[c].mgrNode.None?
    requires id in s.nodes && s.nodes[id].proc.Some? && s.nodes[id].context == c
    ensures var n := s.nodes[id];
            var t := SetNode(s, id,
                n.(localWeak := n.localWeak + 1, localStrong := n.localStrong + 1, hasStrong := true, hasWeak := true));
            Seated(t.(contexts := t.contexts[c := Context(Some(id), uid)]), strong, None)
  {
    var t := s.contexts[c := Context(Some(id), uid)];
    assert forall d {:trigger t[d]} :: d in t && d != c ==> s.contexts[d].mgrNode == t[d].mgrNode;
  }

  lemma ManagerIs(s: State, p: ProcId, ptr: nat, cookie: nat)
    requires Known(s) && p in s.procs && ((p, ptr) in s.owned ==> s.owned[(p, ptr)] in s.nodes)
    requires SetContextManager(s, p, ptr, cookie).Ok?
    ensures var c, (t, id) := s.procs[p].context, NewNode(s, p, ptr, cookie);
            && id in t.nodes && c in s.contexts && s.contexts[c].mgrNode.None?
            && var n := t.nodes[id];
               var u := SetNode(t, id,
                   n.(localWeak := n.localWeak + 1, localStrong := n.localStrong + 1, hasStrong := true,
                       hasWeak := true));
               SetContextManager(s, p, ptr, cookie).value ==
                   u.(contexts := u.contexts[c := Context(Some(id), Some(s.procs[p].euid))])
  {
  }

  lemma ManagerHeld(s: State, p: ProcId, ptr: nat, cookie: nat, taken: NodeId -> int, strong: bool)
    requires Inv(s) && Known(s) && Held(s, taken, strong, None) && Untaken(s, taken) && InContext(s) && p in s.procs
    requires (p, ptr) in s.owned ==> s.owned[(p, ptr)] in s.nodes
    requires SetContextManager(s, p, ptr, cookie).Ok?
    ensures Held(SetContextManager(s, p, ptr, cookie).value, taken, strong, None)
  {
    hide *;
    InvParts(s);
    ManagerIs(s, p, ptr, cookie);
    NewNodeHeld(s, p, ptr, cookie, taken, strong);
    OwnNode(s, p, ptr, cookie);
    var (t, id) := NewNode(s, p, ptr, cookie);
    SeatHeld(t, s.procs[p].context, id, Some(s.procs[p].euid), taken, strong);
  }

  lemma KeptHeld(s: State, t: State, taken: NodeId -> int, strong: bool, leaving: Option<ProcId>)
    requires Held(s, taken, strong, leaving) && LocalsKept(s, t)
    ensures Held(t, taken, strong, leaving)
  {
    hide Backed, Seated, LocalsKept;
    KeptSeated(s, t, taken, strong, leaving);
  }

  lemma HeldAt(s: State, taken: NodeId -> int, strong: bool, id: NodeId)
    requires Held(s, taken, strong, None) && id in s.nodes
    ensures taken(id) >= 0 && (s.nodes[id].proc.Some? ==> Exact(s, id, taken(id), strong))
  {
  }

  lemma OwnNode(s: State, p: ProcId, ptr: nat, cookie: nat)
    requires Owners(s) && InContext(s) && p in s.procs
    ensures var (t, id) := NewNode(s, p, ptr, cookie);
            && id in t.nodes && t.nodes[id].proc == Some(p) && t.nodes[id].context == s.procs[p].context
                 && t.contexts == s.contexts
  {
  }

  lemma ReadHeld(s: State, l: WorkList, taken: NodeId -> int, strong: bool)
    requires Held(s, taken, strong, None) && l in s.queues && s.queues[l] != []
    ensures Held(ReadFront(s, l).0, taken, strong, None)
  {
    hide Held;
    var w := s.queues[l][0];
    var u := s.(queues := s.queues[l := s.queues[l][1..]]);
    QueuesKept(s, u.queues);
    KeptHeld(s, u, taken, strong, None);
    if w.NodeWork? && w.node in u.nodes {
      var n := u.nodes[w.node];
      if WeakNow(n) {
        ToldHeld(u, w.node, taken, strong);
      } else {
        Unheld(u, w.node, u.owned - {(l.proc, n.ptr)}, taken, strong);
      }
    }
  }

  lemma ToldHeld(s: State, id: NodeId, taken: NodeId -> int, strong: bool)
    requires Held(s, taken, strong, None) && id in s.nodes
    ensures Held(SetNode(s, id, Told(s.nodes[id])), taken, strong, None)
  {
    hide Held;
    HeldAt(s, taken, strong, id);
    NodeSetHeld(s, id, Told(s.nodes[id]), taken, taken, strong);
  }

  lemma Unheld(s: State, id: NodeId, owned: map<(ProcId, nat), NodeId>, taken: NodeId -> int, strong: bool)
    requires Held(s, taken, strong, None) && id in s.nodes && s.nodes[id].localStrong + s.nodes[id].localWeak == 0
    ensures Held(s.(owned := owned, nodes := s.nodes - {id}), taken, strong, None)
  {
    hide Held;
    KeptHeld(s, s.(owned := owned, nodes := s.nodes - {id}), taken, strong, None);
  }

  lemma TakeHeld(s: State, id: NodeId, kind: bool, target: Option<(ProcId, Tid)>, taken: NodeId -> int,
      taken': NodeId -> int, strong: bool)
    requires Held(s, taken, strong, None) && IncNode(s, id, kind, false, target).Ok? && id in s.nodes
    requires forall k: NodeId {:trigger taken'(k)} :: taken'(k) == taken(k) + One(k == id && kind == strong)
    ensures Held(IncNode(s, id, kind, false, target).value, taken', strong, None)
  {
    hide IncNode, Held, LocalsKept;
    HeldAt(s, taken, strong, id);
    var n := Raised(s.nodes[id], kind, false);
    NodeSetHeld(s, id, n, taken, taken', strong);
    IncNodeKept(s, id, kind, false, target);
    KeptHeld(SetNode(s, id, n), IncNode(s, id, kind, false, target).value, taken', strong, None);
  }

  lemma GiveHeld(s: State, id: NodeId, kind: bool, taken: NodeId -> int, taken': NodeId -> int, strong: bool)
    requires Held(s, taken, strong, None) && (kind == strong ==> taken(id) > 0)
    requires forall k: NodeId {:trigger taken'(k)} :: taken'(k) == taken(k) - One(k == id && kind == strong)
    ensures Held(DecNode(s, id, kind, false), taken', strong, None)
  {
    if id in s.nodes {
      hide DecNode, Held, LocalsKept;
      var n, t := Lowered(s.nodes[id], kind, false), DecNode(s, id, kind, false);
      HeldAt(s, taken, strong, id);
      NodeSetHeld(s, id, n, taken, taken', strong);
      DecNodeKept(s, id, kind, false);
      KeptHeld(SetNode(s, id, n), t, taken', strong, None);
    } else {
      assert forall k {:trigger k in s.nodes} :: k in s.nodes ==> taken'(k) == taken(k);
    }
  }

  lemma DoneHeld(s: State, p: ProcId, ptr: nat, cookie: nat, kind: bool, taken: NodeId -> int, strong: bool)
    requires Held(s, taken, strong, None)
    ensures Held(Done(s, p, ptr, cookie, kind), taken, strong, None)
  {
    hide Held, DecNode, LocalsKept;
    if (p, ptr) in s.owned && s.owned[(p, ptr)] in s.nodes {
      var id := s.owned[(p, ptr)];
      var n := s.nodes[id];
      if n.cookie == cookie && (if kind then n.pendingStrong else n.pendingWeak) {
        AcknowledgedHeld(s, id, kind, taken, strong);
      }
    }
  }

  lemma AcknowledgedHeld(s: State, id: NodeId, kind: bool, taken: NodeId -> int, strong: bool)
    requires Held(s, taken, strong, None) && id in s.nodes && Pending(s.nodes[id], kind)
    ensures var n := s.nodes[id];
            Held(DecNode(SetNode(s, id, if kind then n.(pendingStrong := false) else n.(pendingWeak := false)), id,
                kind, false), taken, strong, None)
  {
    hide Held, DecNode, LocalsKept;
    var n := s.nodes[id];
    var m := if kind then n.(pendingStrong := false) else n.(pendingWeak := false);
    var u, k := SetNode(s, id, m), Lowered(m, kind, false);
    HeldAt(s, taken, strong, id);
    NodeSetHeld(s, id, k, taken, taken, strong);
    assert SetNode(u, id, k) == SetNode(s, id, k);
    DecNodeKept(u, id, kind, false);
    KeptHeld(SetNode(s, id, k), DecNode(u, id, kind, false), taken, strong, None);
  }

  // ---- a process leaves ----

  /** The context of `p` loses its manager if that was a node of `p`; the other nodes' counts are still exact. */
  lemma ManagerReleasedHeld(s: State, p: ProcId, taken: NodeId -> int, strong: bool)
    requires Held(s, taken, strong, None) && InContext(s) && p in s.procs
    ensures Held(ManagerReleased(s, p), taken, strong, Some(p))
  {
    hide ManagerReleased, Backed, Seated;
    ManagerReleasedSeated(s, p, strong);
    ManagerReleasedBacked(s, p, taken, strong);
  }

  lemma ManagerReleasedSeated(s: State, p: ProcId, strong: bool)
    requires Seated(s, strong, None) && InContext(s) && p in s.procs
    ensures Seated(ManagerReleased(s, p), strong, Some(p))
  {
    var m := ManagerReleased(s, p);
    forall c | c in m.contexts && m.contexts[c].mgrNode.Some?
      ensures var n := m.contexts[c].mgrNode.value;
              && n in m.nodes && m.nodes[n].proc.Some? && m.nodes[n].proc != Some(p) && m.nodes[n].context == c
              && Believes(m.nodes[n], strong)
    {
      assert s.contexts[c].mgrNode == m.contexts[c].mgrNode;
    }
  }

  lemma ManagerReleasedBacked(s: State, p: ProcId, taken: NodeId -> int, strong: bool)
    requires Backed(s, taken, strong, None) && p in s.procs
    ensures Backed(ManagerReleased(s, p), taken, strong, Some(p))
  {
    var m := ManagerReleased(s, p);
    forall n | n in m.nodes && m.nodes[n].proc.Some? && m.nodes[n].proc != Some(p)
      ensures Exact(m, n, taken(n), strong)
    {
      assert n in s.nodes;
      SameManages(s, m, n);
    }
  }

  lemma NodesReleasedHeld(s: State, p: ProcId, taken: NodeId -> int, strong: bool)
    requires Held(s, taken, strong, Some(p))
    ensures Held(NodesReleased(s, p), taken, strong, None)
  {
    var t := NodesReleased(s, p);
    forall k | k in t.nodes ensures taken(k) >= 0 && (t.nodes[k].proc.Some? ==> Exact(t, k, taken(k), strong)) {
      assert k in s.nodes;
      assert Manages(t, k) == Manages(s, k);
    }
    forall c | c in t.contexts && t.contexts[c].mgrNode.Some?
      ensures var n := t.contexts[c].mgrNode.value;
              n in t.nodes && t.nodes[n].proc.Some? && t.nodes[n].context == c && Believes(t.nodes[n], strong)
    {
      assert s.contexts[c].mgrNode == t.contexts[c].mgrNode;
    }
  }

  lemma ProcsHeld(s: State, procs: map<ProcId, Proc>, taken: NodeId -> int, strong: bool)
    requires Held(s, taken, strong, None)
    ensures Held(s.(procs := procs), taken, strong, None)
  {
    var t := s.(procs := procs);
    forall k | k in t.nodes && t.nodes[k].proc.Some? ensures Exact(t, k, taken(k), strong) {
      assert k in s.nodes;
      assert Manages(t, k) == Manages(s, k);
    }
  }

  lemma ForgottenKept(s: State, q: seq<Work>)
    ensures LocalsKept(s, Forgotten(s, q))
  {
  }

  lemma EndHeld(s: State, p: ProcId, taken: NodeId -> int, strong: bool)
    requires Held(s, taken, strong, None)
    ensures var c := if ProcList(p) in s.queues then Forgotten(s, s.queues[ProcList(p)]) else s;
            Held(c.(queues := c.queues - {ProcList(p)}, procs := c.procs - {p}), taken, strong, None)
  {
    hide Held, Forgotten, LocalsKept;
    var c := if ProcList(p) in s.queues then Forgotten(s, s.queues[ProcList(p)]) else s;
    if ProcList(p) in s.queues {
      ForgottenKept(s, s.queues[ProcList(p)]);
      KeptHeld(s, c, taken, strong, None);
    }
    var d := c.(queues := c.queues - {ProcList(p)});
    QueuesKept(c, d.queues);
    KeptHeld(c, d, taken, strong, None);
    ProcsHeld(d, c.procs - {p}, taken, strong);
  }

  lemma ReleaseProcHeld(s: State, p: ProcId, tids: seq<Tid>, descs: seq<nat>, taken: NodeId -> int, strong: bool)
    requires Held(s, taken, strong, None) && InContext(s)
    ensures Held(ReleaseProc(s, p, tids, descs), taken, strong, None)
  {
    hide Held, InContext, ManagerReleased, ThreadsReleased, NodesReleased, RefsReleased, Forgotten, LocalsKept;
    if p in s.procs {
      var m := ManagerReleased(s, p);
      ManagerReleasedHeld(s, p, taken, strong);
      var a := ThreadsReleased(m, p, tids);
      ThreadsReleasedKept(m, p, tids);
      KeptHeld(m, a, taken, strong, Some(p));
      var b := NodesReleased(a, p);
      NodesReleasedHeld(a, p, taken, strong);
      var c := RefsReleased(b, p, descs);
      RefsReleasedKept(b, p, descs);
      KeptHeld(b, c, taken, strong, None);
      EndHeld(c, p, taken, strong);
    }
  }

  // ---- every run ----

  /** How a step changes what transactions and buffers have taken of a node, of one kind. */
  ghost function Taken(s: State, step: Step, n: NodeId, strong: bool): int {
    match step
    case TakeLocal(id, kind, _) => One(kind == strong && id == n && n in s.nodes)
    case GiveLocal(id, kind) => 0 - One(kind == strong && id == n)
    case _ => 0
  }

  lemma NextHeld(s: State, step: Step, taken: NodeId -> int, taken': NodeId -> int, strong: bool)
    requires Inv(s) && Known(s) && Enabled(s, step) && Held(s, taken, strong, None) && Untaken(s, taken) && InContext(s)
    requires forall n: NodeId {:trigger taken'(n)} :: taken'(n) == taken(n) + Taken(s, step, n, strong)
    requires step.GiveLocal? && step.strong == strong ==> taken(step.node) > 0
    ensures Held(Next(s, step), taken', strong, None)
  {
    hide Inv, InContext, NewProc, NewNode, SetContextManager, IncRefForNode, UpdateRefForHandle, IncNode, DecNode,
         ReadFront, Done,
         ThreadRelease, ReleaseProc, LocalsKept, Held, Untaken;
    InvNames(s);
    if !step.TakeLocal? && !step.GiveLocal? {
      NextHeldQuietly(s, step, taken, strong);
      SameTaken(Next(s, step), taken, taken', strong);
    } else if step.GiveLocal? {
      GiveHeld(s, step.node, step.strong, taken, taken', strong);
    } else if step.node in s.nodes {
      TakeOk(s, step.node, step.strong, step.target);
      TakeHeld(s, step.node, step.strong, step.target, taken, taken', strong);
    } else {
      TakeOk(s, step.node, step.strong, step.target);
      SameTaken(s, taken, taken', strong);
    }
  }

  lemma TakeOk(s: State, id: NodeId, strong: bool, target: Option<(ProcId, Tid)>)
    ensures IncNode(s, id, strong, false, target).Ok? <==> id in s.nodes
  {
  }

  lemma SameTaken(s: State, taken: NodeId -> int, taken': NodeId -> int, strong: bool)
    requires Held(s, taken, strong, None) && forall n: NodeId {:trigger taken'(n)} :: taken'(n) == taken(n)
    ensures Held(s, taken', strong, None)
  {
    assert forall k {:trigger k in s.nodes} :: k in s.nodes ==> taken'(k) == taken(k);
  }

  lemma NextHeldQuietly(s: State, step: Step, taken: NodeId -> int, strong: bool)
    requires Inv(s) && Known(s) && Enabled(s, step) && Held(s, taken, strong, None) && Untaken(s, taken) && InContext(s)
    requires !step.TakeLocal? && !step.GiveLocal?
    ensures Held(Next(s, step), taken, strong, None)
  {
    hide Inv, InContext, NewProc, NewNode, SetContextManager, IncRefForNode, UpdateRefForHandle, ReadFront, Done,
         ThreadRelease, ReleaseProc, LocalsKept, Held, Untaken;
    InvNames(s);
    match step
    case AddProc(context, euid) => NewProcHeld(s, context, euid, taken, strong);
    case AddThread(p, t) =>
      QueuesKept(s, NewThread(s, p, t).queues);
      KeptHeld(s, Next(s, step), taken, strong, None);
    case AddNode(p, ptr, cookie) =>
      InvParts(s);
      NewNodeHeld(s, p, ptr, cookie, taken, strong);
    case BecomeManager(p, ptr, cookie) =>
      if SetContextManager(s, p, ptr, cookie).Ok? {
        ManagerHeld(s, p, ptr, cookie, taken, strong);
      }
    case Hand(p, node, kind, target, free) =>
      HandKept(s, p, node, kind, target, free);
      KeptHeld(s, Next(s, step), taken, strong, None);
    case UpdateRef(p, desc, increment, kind) =>
      if UpdateRefForHandle(s, p, desc, increment, kind).Ok? {
        UpdateKept(s, p, desc, increment, kind);
        KeptHeld(s, Next(s, step), taken, strong, None);
      }
    case Post(l, tag) =>
      QueuesKept(s, Enqueue(s, l, OtherWork(tag)).queues);
      KeptHeld(s, Next(s, step), taken, strong, None);
    case Read(l) => ReadHeld(s, l, taken, strong);
    case Acknowledge(p, ptr, cookie, kind) => DoneHeld(s, p, ptr, cookie, kind, taken, strong);
    case ThreadExit(p, t) =>
      ThreadReleaseKept(s, p, t);
      KeptHeld(s, Next(s, step), taken, strong, None);
    case ProcExit(p, tids, descs) => ReleaseProcHeld(s, p, tids, descs, taken, strong);
  }

  /** What has been taken of a node, and not been given back, in a run. */
  ghost function Outstanding(steps: seq<Step>, n: NodeId, strong: bool): int {
    if steps == [] then 0
    else
      var last := |steps| - 1;
      var m := Exec(steps[..last]);
      Outstanding(steps[..last], n, strong) + (if m.None? then 0 else Taken(m.value.state, steps[last], n, strong))
  }

  /** Only what was taken is given back. */
  ghost predicate Balanced(steps: seq<Step>, strong: bool) {
    steps == [] ||
    var last := |steps| - 1;
    && Balanced(steps[..last], strong)
    && (steps[last].GiveLocal? && steps[last].strong == strong ==>
          Outstanding(steps[..last], steps[last].node, strong) > 0)
  }

  lemma IdsGrow(s: State, step: Step)
    requires Inv(s) && Known(s) && Enabled(s, step)
    ensures s.nextId <= Next(s, step).nextId
  {
    hide Inv, Known, IncRefForNode, UpdateRefForHandle, IncNode, DecNode, Done, ThreadRelease, ReleaseProc;
    InvNames(s);
    if !step.AddProc? && !step.AddNode? && !step.BecomeManager? && !step.Read? {
      NextSteady(s, step);
    }
  }

  ghost function TakenIn(steps: seq<Step>, strong: bool): NodeId -> int {
    (n: NodeId) => Outstanding(steps, n, strong)
  }

  lemma StartHeld(strong: bool)
    ensures Held(START.state, TakenIn([], strong), strong, None) && Untaken(START.state, TakenIn([], strong))
  {
  }

  lemma TakenMore(steps: seq<Step>, strong: bool)
    requires steps != [] && Exec(steps[..|steps| - 1]).Some?
    ensures var last := |steps| - 1;
            forall n: NodeId {:trigger TakenIn(steps, strong)(n)} ::
              TakenIn(steps, strong)(n)
              == TakenIn(steps[..last], strong)(n) + Taken(Exec(steps[..last]).value.state, steps[last], n, strong)
  {
    hide Exec, Inv, Known, Agreed, Taken;
  }

  lemma {:induction false} RunHeld(steps: seq<Step>, strong: bool)
    requires Exec(steps).Some? && Balanced(steps, strong)
    ensures Held(Exec(steps).value.state, TakenIn(steps, strong), strong, None)
    ensures Untaken(Exec(steps).value.state, TakenIn(steps, strong))
  {
    if steps == [] {
      StartHeld(strong);
    } else {
      hide Inv, Known, Agreed, Enabled, Next, InContext, Held, Untaken, Taken;
      var last := |steps| - 1;
      var front := steps[..last];
      var u, before := Exec(front).value.state, TakenIn(front, strong);
      RunHeld(front, strong);
      RunInContext(front);
      TakenMore(steps, strong);
      assert steps[last].GiveLocal? ==> before(steps[last].node) == Outstanding(front, steps[last].node, strong);
      NextHeld(u, steps[last], before, TakenIn(steps, strong), strong);
      NextUntaken(u, steps[last], before, TakenIn(steps, strong), strong);
    }
  }

  lemma NextUntaken(s: State, step: Step, taken: NodeId -> int, taken': NodeId -> int, strong: bool)
    requires Inv(s) && Known(s) && Enabled(s, step) && Untaken(s, taken)
    requires forall n: NodeId {:trigger taken'(n)} :: taken'(n) == taken(n) + Taken(s, step, n, strong)
    requires step.GiveLocal? && step.strong == strong ==> taken(step.node) > 0
    ensures Untaken(Next(s, step), taken')
  {
    hide Inv, Known, Enabled, Next;
    InvNames(s);
    IdsGrow(s, step);
  }

  /** In every run that gives back only what it took, a node with an owner counts exactly what is taken of it and not
      given back, an acknowledgement it waits for, and its being a manager: of either kind. */
  lemma LocalCounts(steps: seq<Step>, strong: bool, n: NodeId)
    requires Exec(steps).Some? && Balanced(steps, strong)
    ensures var s := Exec(steps).value.state;
            n in s.nodes && s.nodes[n].proc.Some? ==>
              && (if strong then s.nodes[n].localStrong else s.nodes[n].localWeak)
                 == Outstanding(steps, n, strong)
                    + One(if strong then s.nodes[n].pendingStrong else s.nodes[n].pendingWeak) + One(Manages(s, n))
              && Outstanding(steps, n, strong) >= 0
  {
    hide Exec, Inv, Known, Agreed, Balanced, Outstanding;
    RunHeld(steps, strong);
  }

  /** In every balanced run the manager of a context is a node that is there, strongly held by its owner. */
  lemma ManagerLives(steps: seq<Step>, c: nat)
    requires Exec(steps).Some? && Balanced(steps, true)
    ensures var s := Exec(steps).value.state;
            c in s.contexts && s.contexts[c].mgrNode.Some? ==>
              var n := s.contexts[c].mgrNode.value;
              && IsContextManager(s, n) && s.nodes[n].proc.Some? && StrongNow(s.nodes[n]) && s.nodes[n].hasStrong
  {
    hide Exec, Inv, Known, Agreed, Balanced, Outstanding;
    var s, taken := Exec(steps).value.state, TakenIn(steps, true);
    RunHeld(steps, true);
    if c in s.contexts && s.contexts[c].mgrNode.Some? {
      var n := s.contexts[c].mgrNode.value;
      assert n in s.nodes && Manages(s, n) && Exact(s, n, taken(n), true);
    }
  }

  /** So a process that asks for a handle on its context's manager gets one, of either kind. */
  lemma ManagerIsHandedOut(steps: seq<Step>, p: ProcId, strong: bool, free: nat)
    requires Exec(steps).Some? && Balanced(steps, true)
    requires var s := Exec(steps).value.state;
             && p in s.procs && s.procs[p].context in s.contexts && s.contexts[s.procs[p].context].mgrNode.Some?
             && IsLowestFree(s, p, 0, free)
    ensures var s := Exec(steps).value.state;
            var n := s.contexts[s.procs[p].context].mgrNode.value;
            && Enabled(s, Hand(p, n, strong, None, free))
            && ((p, n) in s.handles ==> (p, s.handles[(p, n)]) in s.refs)
            && IncRefForNode(s, p, n, strong, None, free).1.Ok?
  {
    hide Exec, Inv, Known, Agreed, Balanced, IncRefForNode;
    var s := Exec(steps).value.state;
    ManagerLives(steps, s.procs[p].context);
    InvNames(s);
    IncRefForNodeOk(s, p, s.contexts[s.procs[p].context].mgrNode.value, strong, None, free);
  }
}
