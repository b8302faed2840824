/** Nodes whose owner is gone stay exactly as long as something holds them. */
module BinderOrphans {
  import opened Common
  import opened BinderState
  import opened BinderInvariant
  import opened BinderSteps
  import opened BinderLocals
  import opened BinderRelease
  import opened BinderRuns
  import opened BinderManager

  /** A node has an owner, or a handle or a local reference holds it. */
  ghost predicate Needed(n: Node) {
    n.proc.Some? || n.refs != {} || n.localStrong + n.localWeak > 0
  }

  ghost predicate NeededBut(s: State, id: NodeId) {
    forall n {:trigger n in s.nodes} :: n in s.nodes && n != id ==> Needed(s.nodes[n])
  }

  ghost predicate AllNeeded(s: State) {
    forall n {:trigger n in s.nodes} :: n in s.nodes ==> Needed(s.nodes[n])
  }

  lemma TouchedNeeded(s: State, t: State, id: NodeId)
    requires NeededBut(s, id) && TouchesOnly(s, t, id) && (id in t.nodes ==> Needed(t.nodes[id]))
    ensures AllNeeded(t)
  {
  }

  /** Counting a node down drops it if nothing needs it then. */
  lemma DecNodeNeeded(s: State, id: NodeId, strong: bool, internal: bool)
    requires NeededBut(s, id)
    requires id in s.nodes && strong && s.nodes[id].refs == {} ==>
               Lowered(s.nodes[id], true, internal).internalStrong == 0
    ensures AllNeeded(DecNode(s, id, strong, internal))
  {
    hide NeededBut, AllNeeded, TouchesOnly;
    if id in s.nodes {
      CountedDown(s, id, strong, internal);
      hide DecNode, DropNode;
      DecNodeShape(s, id, strong, internal);
      TouchedNeeded(s, DecNode(s, id, strong, internal), id);
    } else {
      DecNodeMissing(s, id, strong, internal);
      NoneBut(s, id);
    }
  }

  lemma NoneBut(s: State, id: NodeId)
    requires NeededBut(s, id) && id !in s.nodes
    ensures AllNeeded(s)
  {
  }

  lemma CountedDown(s: State, id: NodeId, strong: bool, internal: bool)
    requires id in s.nodes
    requires strong && s.nodes[id].refs == {} ==> Lowered(s.nodes[id], true, internal).internalStrong == 0
    ensures id in DecNode(s, id, strong, internal).nodes ==> Needed(DecNode(s, id, strong, internal).nodes[id])
  {
    hide LastReferenceGone;
    LastHold(SetNode(s, id, Lowered(s.nodes[id], strong, internal)), id);
  }

  lemma IncNodeNeeded(s: State, id: NodeId, strong: bool, internal: bool, target: Option<(ProcId, Tid)>)
    requires AllNeeded(s) && IncNode(s, id, strong, internal, target).Ok?
    ensures AllNeeded(IncNode(s, id, strong, internal, target).value)
  {
    assert id in s.nodes;
    IncNodeShape(s, id, strong, internal, target);
    hide IncNode;
  }

  lemma IncRefNeeded(s: State, p: ProcId, desc: nat, strong: bool, target: Option<(ProcId, Tid)>)
    requires AllNeeded(s) && (p, desc) in s.refs && IncRef(s, p, desc, strong, target).Ok?
    ensures AllNeeded(IncRef(s, p, desc, strong, target).value)
  {
    hide IncNode;
    var r := s.refs[(p, desc)];
    if (if strong then r.strong else r.weak) == 0 {
      IncNodeNeeded(s, r.node, strong, true, target);
    }
  }

  /** A handle may go whatever its node's state: the last look at the node decides. */
  lemma CleanupNeeded(s: State, p: ProcId, desc: nat)
    requires AllNeeded(s)
    ensures AllNeeded(CleanupRef(s, p, desc))
  {
    hide DecNode, Detached;
    if (p, desc) in s.refs {
      DetachedNeeded(s, p, desc);
      DecNodeNeeded(Detached(s, p, desc), s.refs[(p, desc)].node, false, true);
    }
  }

  lemma DetachedNeeded(s: State, p: ProcId, desc: nat)
    requires AllNeeded(s) && (p, desc) in s.refs
    ensures NeededBut(Detached(s, p, desc), s.refs[(p, desc)].node)
  {
    hide DecNode, DropNode;
    var r := s.refs[(p, desc)];
    var s1 := s.(refs := s.refs - {(p, desc)}, handles := s.handles - {(p, r.node)});
    if r.node in s1.nodes {
      DecNodeShape(s1, r.node, true, true);
    } else {
      DecNodeMissing(s1, r.node, true, true);
    }
  }

  lemma DecRefNeeded(s: State, p: ProcId, desc: nat, strong: bool)
    requires Inv(s) && AllNeeded(s) && DecRef(s, p, desc, strong).Ok?
    ensures AllNeeded(DecRef(s, p, desc, strong).value)
  {
    hide Inv, DecNode, CleanupRef, AllNeeded, NeededBut;
    HeldBack(s, p, desc);
    var r := s.refs[(p, desc)];
    if (if strong then r.strong else r.weak) != 0 {
      var r' := if strong then r.(strong := r.strong - 1) else r.(weak := r.weak - 1);
      var t := s.(refs := s.refs[(p, desc) := r']);
      RefsNeeded(s, t.refs, r.node);
      DecNodeNeeded(t, r.node, true, true);
      var u := if strong && r'.strong == 0 then DecNode(t, r.node, true, true) else t;
      CleanupNeeded(u, p, desc);
    }
  }

  lemma HeldBack(s: State, p: ProcId, desc: nat)
    requires Inv(s) && (p, desc) in s.refs
    ensures s.refs[(p, desc)].node in s.nodes && s.nodes[s.refs[(p, desc)].node].refs != {}
  {
    assert (p, s.refs[(p, desc)].node) in s.handles;
    assert p in s.nodes[s.refs[(p, desc)].node].refs;
  }

  lemma RefsNeeded(s: State, refs: map<(ProcId, nat), Ref>, id: NodeId)
    requires AllNeeded(s)
    ensures AllNeeded(s.(refs := refs)) && NeededBut(s.(refs := refs), id)
  {
  }

  lemma UpdateNeeded(s: State, p: ProcId, desc: nat, increment: bool, strong: bool)
    requires Inv(s) && AllNeeded(s) && UpdateRefForHandle(s, p, desc, increment, strong).Ok?
    ensures AllNeeded(UpdateRefForHandle(s, p, desc, increment, strong).value)
  {
    hide Inv, AllNeeded, IncRef, DecRef;
    if increment {
      IncRefNeeded(s, p, desc, strong, None);
    } else {
      DecRefNeeded(s, p, desc, strong);
    }
  }

  lemma HandNeeded(s: State, p: ProcId, node: NodeId, strong: bool, target: Option<(ProcId, Tid)>, free: nat)
    requires AllNeeded(s) && ((p, node) in s.handles ==> (p, s.handles[(p, node)]) in s.refs)
    ensures AllNeeded(IncRefForNode(s, p, node, strong, target, free).0)
  {
    var t := AddRef(s, p, node, free);
    assert (p, free) in t.refs && AllNeeded(t);
    hide IncRef, CleanupRef, AllNeeded, AddRef;
    if p in s.procs && (p, node) in s.handles {
      if IncRef(s, p, s.handles[(p, node)], strong, target).Ok? {
        IncRefNeeded(s, p, s.handles[(p, node)], strong, target);
      }
    } else if p in s.procs && node in s.nodes {
      if IncRef(t, p, free, strong, target).Ok? {
        IncRefNeeded(t, p, free, strong, target);
      } else {
        CleanupNeeded(t, p, free);
      }
    }
  }

  lemma GiveNeeded(s: State, id: NodeId, strong: bool)
    requires Inv(s) && AllNeeded(s)
    ensures AllNeeded(DecNode(s, id, strong, false))
  {
    if id in s.nodes && s.nodes[id].refs == {} {
      NoRefsNoCount(s, id);
    }
    hide Inv, DecNode;
    DecNodeNeeded(s, id, strong, false);
  }

  lemma DoneNeeded(s: State, p: ProcId, ptr: nat, cookie: nat, strong: bool)
    requires Inv(s) && AllNeeded(s)
    ensures AllNeeded(Done(s, p, ptr, cookie, strong))
  {
    hide Inv, DecNode, AllNeeded;
    if Awaited(s, p, ptr, cookie, strong) {
      var id := s.owned[(p, ptr)];
      var m := Acknowledged(s.nodes[id], strong);
      ViewsImply(s, id);
      FlagsEdited(s, id, m);
      EditNeeded(s, id, m);
      GiveNeeded(SetNode(s, id, m), id, strong);
    }
  }

  lemma EditNeeded(s: State, id: NodeId, m: Node)
    requires AllNeeded(s) && id in s.nodes && (Needed(s.nodes[id]) ==> Needed(m))
    ensures AllNeeded(SetNode(s, id, m))
  {
  }

  lemma {:induction false} RefsReleasedNeeded(s: State, p: ProcId, descs: seq<nat>)
    requires AllNeeded(s)
    ensures AllNeeded(RefsReleased(s, p, descs))
  {
    hide CleanupRef, AllNeeded;
    if descs != [] {
      var last := |descs| - 1;
      RefsReleasedNeeded(s, p, descs[..last]);
      CleanupNeeded(RefsReleased(s, p, descs[..last]), p, descs[last]);
    }
  }

  lemma ThreadReleaseNeeded(s: State, p: ProcId, t: Tid)
    requires AllNeeded(s)
    ensures AllNeeded(ThreadRelease(s, p, t))
  {
  }

  lemma {:induction false} ThreadsReleasedNeeded(s: State, p: ProcId, tids: seq<Tid>)
    requires AllNeeded(s)
    ensures AllNeeded(ThreadsReleased(s, p, tids))
  {
    hide ThreadRelease, AllNeeded;
    if tids != [] {
      var last := |tids| - 1;
      ThreadsReleasedNeeded(s, p, tids[..last]);
      ThreadReleaseNeeded(ThreadsReleased(s, p, tids[..last]), p, tids[last]);
    }
  }

  lemma NodesReleasedNeeded(s: State, p: ProcId)
    requires AllNeeded(s)
    ensures AllNeeded(NodesReleased(s, p))
  {
  }

  lemma ReleaseProcNeeded(s: State, p: ProcId, tids: seq<Tid>, descs: seq<nat>)
    requires AllNeeded(s)
    ensures AllNeeded(ReleaseProc(s, p, tids, descs))
  {
    hide ThreadsReleased, NodesReleased, RefsReleased, Forgotten, AllNeeded;
    if p in s.procs {
      var m := ManagerReleased(s, p);
      SameNodesNeeded(s, m);
      ThreadsReleasedNeeded(m, p, tids);
      var a := ThreadsReleased(m, p, tids);
      NodesReleasedNeeded(a, p);
      RefsReleasedNeeded(NodesReleased(a, p), p, descs);
      var b := RefsReleased(NodesReleased(a, p), p, descs);
      if ProcList(p) in b.queues {
        ForgottenNeeded(b, b.queues[ProcList(p)]);
      }
      var c := if ProcList(p) in b.queues then Forgotten(b, b.queues[ProcList(p)]) else b;
      SameNodesNeeded(c, c.(queues := c.queues - {ProcList(p)}, procs := c.procs - {p}));
    }
  }

  lemma SameNodesNeeded(s: State, t: State)
    requires AllNeeded(s) && t.nodes == s.nodes
    ensures AllNeeded(t)
  {
  }

  lemma ForgottenNeeded(s: State, q: seq<Work>)
    requires AllNeeded(s)
    ensures AllNeeded(Forgotten(s, q))
  {
  }

  lemma ReadNeeded(s: State, l: WorkList)
    requires AllNeeded(s) && l in s.queues && s.queues[l] != []
    ensures AllNeeded(ReadFront(s, l).0)
  {
  }

  lemma ManagerNeeded(s: State, p: ProcId, ptr: nat, cookie: nat)
    requires Known(s) && AllNeeded(s) && p in s.procs && ((p, ptr) in s.owned ==> s.owned[(p, ptr)] in s.nodes)
    requires SetContextManager(s, p, ptr, cookie).Ok?
    ensures AllNeeded(SetContextManager(s, p, ptr, cookie).value)
  {
  }

  lemma NewNodeNeeded(s: State, p: ProcId, ptr: nat, cookie: nat)
    requires AllNeeded(s) && p in s.procs
    ensures AllNeeded(NewNode(s, p, ptr, cookie).0)
  {
  }

  lemma NextNeeded(s: State, step: Step)
    requires Inv(s) && Known(s) && Enabled(s, step) && AllNeeded(s)
    ensures AllNeeded(Next(s, step))
  {
    hide Inv, AllNeeded, NewNode, SetContextManager, IncRefForNode, UpdateRefForHandle, IncNode, DecNode,
         ReadFront, Done, ThreadRelease, ReleaseProc;
    InvNames(s);
    match step
    case AddProc(context, euid) => SameNodesNeeded(s, Next(s, step));
    case AddThread(p, t) => SameNodesNeeded(s, Next(s, step));
    case AddNode(p, ptr, cookie) => NewNodeNeeded(s, p, ptr, cookie);
    case BecomeManager(p, ptr, cookie) =>
      if SetContextManager(s, p, ptr, cookie).Ok? {
        ManagerNeeded(s, p, ptr, cookie);
      }
    case Hand(p, node, strong, target, free) => HandNeeded(s, p, node, strong, target, free);
    case UpdateRef(p, desc, increment, strong) =>
      if UpdateRefForHandle(s, p, desc, increment, strong).Ok? {
        UpdateNeeded(s, p, desc, increment, strong);
      }
    case TakeLocal(node, strong, target) =>
      if IncNode(s, node, strong, false, target).Ok? {
        IncNodeNeeded(s, node, strong, false, target);
      }
    case GiveLocal(node, strong) => GiveNeeded(s, node, strong);
    case Post(l, tag) => SameNodesNeeded(s, Next(s, step));
    case Read(l) => ReadNeeded(s, l);
    case Acknowledge(p, ptr, cookie, strong) => DoneNeeded(s, p, ptr, cookie, strong);
    case ThreadExit(p, t) => ThreadReleaseNeeded(s, p, t);
    case ProcExit(p, tids, descs) => ReleaseProcNeeded(s, p, tids, descs);
  }

  /** In every run a node without an owner is held by a handle or a local reference: none is left over. */
  lemma {:induction false} NoneLeftOver(steps: seq<Step>)
    requires Exec(steps).Some?
    ensures AllNeeded(Exec(steps).value.state)
  {
    hide Inv, Known, Agreed, Enabled, Next;
    if steps != [] {
      hide AllNeeded;
      var last := |steps| - 1;
      NoneLeftOver(steps[..last]);
      NextNeeded(Exec(steps[..last]).value.state, steps[last]);
    }
  }

  // ---- what a process leaves of its nodes ----

  /** The handles of the others stay. */
  lemma {:induction false} OthersHandles(s: State, p: ProcId, descs: seq<nat>)
    requires Leaving(s, p)
    ensures Leaving(RefsReleased(s, p, descs), p)
    ensures forall k {:trigger k in RefsReleased(s, p, descs).refs} :: k in RefsReleased(s, p, descs).refs ==>
              k in s.refs && RefsReleased(s, p, descs).refs[k] == s.refs[k]
  {
    hide Leaving, CleanupRef;
    if descs != [] {
      var last := |descs| - 1;
      OthersHandles(s, p, descs[..last]);
      CleanupLeaving(RefsReleased(s, p, descs[..last]), p, descs[last]);
    }
  }

  /** What a leaving process does to the handles: its own go. */
  lemma HandlesLeft(s: State, p: ProcId, tids: seq<Tid>, descs: seq<nat>)
    requires Inv(s) && All(s, p, tids, descs) && p in s.procs
    ensures var t := ReleaseProc(s, p, tids, descs);
            && Inv(t)
            && (forall k {:trigger k in t.refs} {:trigger k in s.refs} :: k in t.refs <==> k in s.refs && k.0 != p)
            && (forall k {:trigger k in t.refs} :: k in t.refs ==> t.refs[k] == s.refs[k])
  {
    hide Inv, ThreadsReleased, NodesReleased, RefsReleased, Leaving, Forgotten;
    ReleaseProcInv(s, p, tids, descs);
    var m := ManagerReleased(s, p);
    ContextsEdited(s, m.contexts);
    var a := ThreadsReleased(m, p, tids);
    ThreadsReleasedInv(m, p, tids);
    BecomesLeaving(a, p);
    OthersHandles(NodesReleased(a, p), p, descs);
    RefsReleasedLeaving(NodesReleased(a, p), p, descs);
    var b := RefsReleased(NodesReleased(a, p), p, descs);
    ForgottenRefs(b, p);
  }

  lemma ForgottenRefs(s: State, p: ProcId)
    ensures ProcList(p) in s.queues ==> Forgotten(s, s.queues[ProcList(p)]).refs == s.refs
  {
  }

  lemma BackRefsLeft(s: State, t: State, p: ProcId, n: NodeId)
    requires Tables(s) && BackRefs(s) && Tables(t) && BackRefs(t) && n in s.nodes
    requires forall k {:trigger k in t.refs} {:trigger k in s.refs} :: k in t.refs <==> k in s.refs && k.0 != p
    requires forall k {:trigger k in t.refs} :: k in t.refs ==> t.refs[k] == s.refs[k]
    ensures n in t.nodes ==> t.nodes[n].refs == s.nodes[n].refs - {p}
    ensures s.nodes[n].refs - {p} != {} ==> n in t.nodes
  {
    forall q ensures (q, n) in t.handles <==> (q, n) in s.handles && q != p {
      if (q, n) in t.handles {
        assert (q, t.handles[(q, n)]) in t.refs;
        assert (q, t.handles[(q, n)]) in s.refs;
      }
      if (q, n) in s.handles && q != p {
        assert (q, s.handles[(q, n)]) in s.refs;
        assert (q, s.handles[(q, n)]) in t.refs;
      }
    }
    if s.nodes[n].refs - {p} != {} {
      var q :| q in s.nodes[n].refs - {p};
      assert (q, n) in t.handles;
    }
    if n in t.nodes {
      forall q ensures q in t.nodes[n].refs <==> q in s.nodes[n].refs - {p} {
      }
    }
  }

  lemma OwnerLeft(s: State, p: ProcId, tids: seq<Tid>, descs: seq<nat>, n: NodeId)
    requires p in s.procs && n in s.nodes && s.nodes[n].proc == Some(p)
    ensures var t := ReleaseProc(s, p, tids, descs);
            n in t.nodes ==> t.nodes[n].proc.None? && t.nodes[n].localStrong == 0 && t.nodes[n].localWeak == 0
  {
    hide ThreadsReleased, RefsReleased, NodesReleased, Forgotten, LocalsKept;
    var m := ManagerReleased(s, p);
    var a := ThreadsReleased(m, p, tids);
    ThreadsReleasedKept(m, p, tids);
    KeptAt(m, a, n);
    var b := NodesReleased(a, p);
    OrphanedAt(a, p, n);
    var c := RefsReleased(b, p, descs);
    RefsReleasedKept(b, p, descs);
    KeptAt(b, c, n);
    if ProcList(p) in c.queues {
      ForgottenKept(c, c.queues[ProcList(p)]);
      KeptAt(c, Forgotten(c, c.queues[ProcList(p)]), n);
    }
  }

  lemma KeptAt(s: State, t: State, n: NodeId)
    requires LocalsKept(s, t)
    ensures n in t.nodes ==> n in s.nodes && SameLocal(t.nodes[n], s.nodes[n])
  {
  }

  lemma OrphanedAt(s: State, p: ProcId, n: NodeId)
    ensures n in NodesReleased(s, p).nodes ==>
              n in s.nodes && (s.nodes[n].proc == Some(p) ==>
                var m := NodesReleased(s, p).nodes[n];
                m.proc.None? && m.localStrong == 0 && m.localWeak == 0)
  {
  }

  /** The nodes of a process that has left: exactly those another process has a handle on, without owner and without
      local references. */
  lemma LeftBehind(s: State, p: ProcId, tids: seq<Tid>, descs: seq<nat>, n: NodeId)
    requires Inv(s) && All(s, p, tids, descs) && AllNeeded(s) && p in s.procs
    requires n in s.nodes && s.nodes[n].proc == Some(p)
    ensures var t := ReleaseProc(s, p, tids, descs);
            && (n in t.nodes <==> s.nodes[n].refs - {p} != {})
            && (n in t.nodes ==>
                  && t.nodes[n].proc.None? && t.nodes[n].localStrong == 0 && t.nodes[n].localWeak == 0
                  && t.nodes[n].refs == s.nodes[n].refs - {p})
  {
    hide ReleaseProc, All, Tables, BackRefs, Counts, Counted, Owners, Lists, Queued, Views, Fresh;
    HandlesLeft(s, p, tids, descs);
    BackRefsLeft(s, ReleaseProc(s, p, tids, descs), p, n);
    OwnerLeft(s, p, tids, descs, n);
    ReleaseProcNeeded(s, p, tids, descs);
  }
}
