/** Threads and processes leave the binder driver (`crates/aim-binder-driver/src/release.rs`), and the
    invariant stays. */
module BinderRelease {
  import opened Common
  import opened BinderState
  import opened BinderInvariant
  import opened BinderSteps

  // ---- nodes edited in bulk ----

  /** Every node keeps its references, its owner and its name. */
  ghost predicate SameNodes(s: State, t: State) {
    && t.nodes.Keys == s.nodes.Keys
    && (forall n {:trigger t.nodes[n]} ::
         n in t.nodes ==> t.nodes[n].(workQueued := None) == s.nodes[n].(workQueued := None))
  }

  lemma SameNodesHandles(s: State, t: State)
    requires HandleSide(s) && SameNodes(s, t) && t.refs == s.refs && t.handles == s.handles && t.procs == s.procs
    ensures HandleSide(t)
  {
    hide Holders;
    SameTables(s, t);
    forall n | n in t.nodes ensures t.nodes[n].internalStrong == |Holders(t, n)| {
      SameHolders(s, t, n);
    }
    forall m, q | m in t.nodes ensures q in t.nodes[m].refs <==> (q, m) in t.handles {
      assert q in s.nodes[m].refs <==> (q, m) in s.handles;
    }
  }

  // ---- a thread leaves ----

  lemma ThreadReleaseQueued(s: State, p: ProcId, t: Tid)
    requires Queued(s)
    ensures Queued(ThreadRelease(s, p, t))
  {
    hide Times;
    var l, u := ThreadList(p, t), ThreadRelease(s, p, t);
    if l in s.queues {
      forall n | n in u.nodes ensures QueuedAt(u, n) {
        assert QueuedAt(s, n);
        InQueue(s.queues[l], n);
      }
    }
  }

  lemma ThreadReleaseShape(s: State, p: ProcId, t: Tid)
    ensures var u := ThreadRelease(s, p, t);
            && SameNodes(s, u) && u == s.(nodes := u.nodes, queues := u.queues)
            && u.queues.Keys == s.queues.Keys - {ThreadList(p, t)}
  {
    var l, u := ThreadList(p, t), ThreadRelease(s, p, t);
    if l in s.queues {
      assert u.nodes.Keys == s.nodes.Keys;
    }
  }

  lemma ThreadReleaseOwners(s: State, u: State)
    requires Owners(s) && Lists(s) && Views(s) && Fresh(s) && SameNodes(s, u)
             && u == s.(nodes := u.nodes, queues := u.queues)
    requires u.queues.Keys <= s.queues.Keys && (forall p :: p in u.procs ==> ProcList(p) in u.queues)
    ensures Owners(u) && Lists(u) && Views(u) && Fresh(u)
  {
    assert forall l :: l in u.queues ==> l in s.queues;
  }

  lemma ThreadReleaseInv(s: State, p: ProcId, t: Tid)
    requires Inv(s)
    ensures Inv(ThreadRelease(s, p, t))
  {
    hide HandleSide, Queued, ThreadRelease, Owners, Views, Fresh, SameNodes;
    var u := ThreadRelease(s, p, t);
    InvSides(s);
    ThreadReleaseShape(s, p, t);
    ThreadReleaseQueued(s, p, t);
    ThreadReleaseOwners(s, u);
    SameNodesHandles(s, u);
    InvSides(u);
  }

  lemma {:induction false} ThreadsReleasedInv(s: State, p: ProcId, tids: seq<Tid>)
    requires Inv(s)
    ensures var u := ThreadsReleased(s, p, tids);
            && Inv(u) && u.procs == s.procs && u.refs == s.refs && u.nextId == s.nextId
            && (forall l :: l in u.queues <==> l in s.queues && !(l.ThreadList? && l.proc == p && l.tid in tids))
  {
    hide Inv;
    if tids != [] {
      var last := |tids| - 1;
      ThreadsReleasedInv(s, p, tids[..last]);
      ThreadReleaseInv(ThreadsReleased(s, p, tids[..last]), p, tids[last]);
      assert tids == tids[..last] + [tids[last]];
    }
  }

  // ---- the nodes of a process lose their owner ----

  /** The state with the process queue of `p` emptied: what is left there is stale once its nodes are released. */
  ghost function Emptied(s: State, p: ProcId): State {
    s.(queues := s.queues[ProcList(p) := []])
  }

  /** `p` owns nothing any more, and its own queue is all it has. */
  ghost predicate Ownerless(s: State, p: ProcId) {
    && (forall n {:trigger n in s.nodes} :: n in s.nodes ==> s.nodes[n].proc != Some(p))
    && (forall l {:trigger l in s.queues} :: l in s.queues && l.proc == p ==> l == ProcList(p))
    && ProcList(p) in s.queues
  }

  /** Node work left in the queue of `p` is of nodes without an owner. */
  ghost predicate Stale(s: State, p: ProcId) {
    ProcList(p) in s.queues ==>
      forall n {:trigger n in s.nodes} :: n in s.nodes && NodeWork(n) in s.queues[ProcList(p)] ==> s.nodes[n].proc.None?
  }

  lemma NodesReleasedHandles(s: State, p: ProcId)
    requires HandleSide(s)
    ensures HandleSide(Emptied(NodesReleased(s, p), p))
  {
    hide Holders;
    var t := Emptied(NodesReleased(s, p), p);
    SameTables(s, t);
    forall n | n in t.nodes ensures t.nodes[n].internalStrong == |Holders(t, n)| {
      SameHolders(s, t, n);
    }
    forall m, q | m in t.nodes ensures q in t.nodes[m].refs <==> (q, m) in t.handles {
      assert q in s.nodes[m].refs <==> (q, m) in s.handles;
    }
    forall k | k in t.handles ensures k.1 in t.nodes {
      assert k.0 in s.nodes[k.1].refs;
    }
  }

  lemma NodesReleasedQueued(s: State, p: ProcId)
    requires Queued(s) && (forall l {:trigger l in s.queues} :: l in s.queues && l.proc == p ==> l == ProcList(p))
    ensures Queued(Emptied(NodesReleased(s, p), p))
  {
    assert forall n :: Times([], n) == 0;
    hide Times;
    var t := Emptied(NodesReleased(s, p), p);
    forall n | n in t.nodes ensures QueuedAt(t, n) {
      assert QueuedAt(s, n);
    }
    forall l, n | l in t.queues && Times(t.queues[l], n) > 0 ensures n in t.nodes {
      assert l != ProcList(p);
      assert Times(s.queues[l], n) > 0;
      assert QueuedAt(s, n);
    }
  }

  lemma NodesReleasedOwners(s: State, p: ProcId)
    requires Owners(s) && Lists(s) && Views(s) && Fresh(s) && p in s.procs
    requires forall l {:trigger l in s.queues} :: l in s.queues && l.proc == p ==> l == ProcList(p)
    ensures var t := Emptied(NodesReleased(s, p), p);
            Owners(t) && Lists(t) && Views(t) && Fresh(t) && Ownerless(NodesReleased(s, p), p)
  {
  }

  lemma NodesReleasedInv(s: State, p: ProcId)
    requires Inv(s) && p in s.procs
             && (forall l {:trigger l in s.queues} :: l in s.queues && l.proc == p ==> l == ProcList(p))
    ensures var t := NodesReleased(s, p); Inv(Emptied(t, p)) && Ownerless(t, p)
  {
    hide HandleSide, Queued, Owners, Lists, Views, Fresh, Ownerless, NodesReleased;
    InvSides(s);
    NodesReleasedHandles(s, p);
    NodesReleasedQueued(s, p);
    NodesReleasedOwners(s, p);
    NodesReleasedCounted(s, p);
    InvSides(Emptied(NodesReleased(s, p), p));
  }

  lemma NodesReleasedCounted(s: State, p: ProcId)
    requires Counted(s)
    ensures Counted(Emptied(NodesReleased(s, p), p))
  {
  }

  lemma NodesReleasedStale(s: State, p: ProcId)
    requires Queued(s)
    ensures Stale(NodesReleased(s, p), p)
  {
    hide Times;
    var t := NodesReleased(s, p);
    if ProcList(p) in t.queues {
      forall n | n in t.nodes && NodeWork(n) in t.queues[ProcList(p)] ensures t.nodes[n].proc.None? {
        InQueue(s.queues[ProcList(p)], n);
        assert QueuedAt(s, n);
      }
    }
  }

  // ---- its handles go ----

  lemma SetBoth<K, V>(m: map<K, V>, k: K, a: V, l: K, b: V)
    requires k != l
    ensures m[k := a][l := b] == m[l := b][k := a]
  {
  }

  /** The process queue of `p` is as it was, and emptying it before or after makes no difference. */
  ghost predicate Aside(s: State, t: State, t': State, p: ProcId) {
    && t' == Emptied(t, p) && t.queues.Keys == s.queues.Keys
    && (ProcList(p) in s.queues ==> t.queues[ProcList(p)] == s.queues[ProcList(p)])
  }

  lemma DequeueAside(s: State, p: ProcId, id: NodeId)
    requires id in s.nodes && s.nodes[id].workQueued != Some(ProcList(p))
    ensures Aside(s, DequeueNodeWork(s, id), DequeueNodeWork(Emptied(s, p), id), p)
  {
    hide RemoveFirst;
    if s.nodes[id].workQueued.Some? {
      var l := s.nodes[id].workQueued.value;
      if l in s.queues {
        SetBoth(s.queues, l, RemoveFirst(s.queues[l], NodeWork(id)), ProcList(p), []);
      }
    }
  }

  lemma QueueAside(s: State, p: ProcId, id: NodeId, l: WorkList)
    requires id in s.nodes && l != ProcList(p)
    ensures Aside(s, QueueNodeWork(s, id, l), QueueNodeWork(Emptied(s, p), id, l), p)
  {
    if l in s.queues {
      SetBoth(s.queues, l, s.queues[l] + [NodeWork(id)], ProcList(p), []);
    }
  }

  lemma DropAside(s: State, p: ProcId, id: NodeId)
    requires id in s.nodes && s.nodes[id].workQueued != Some(ProcList(p))
    ensures Aside(s, DropNode(s, id), DropNode(Emptied(s, p), id), p)
  {
    hide DequeueNodeWork;
    DequeueAside(s, p, id);
  }

  lemma LastAside(s: State, p: ProcId, id: NodeId)
    requires id in s.nodes && s.nodes[id].workQueued != Some(ProcList(p)) && s.nodes[id].proc != Some(p)
    ensures Aside(s, LastReferenceGone(s, id), LastReferenceGone(Emptied(s, p), id), p)
  {
    hide QueueNodeWork, DropNode;
    DropAside(s, p, id);
    if s.nodes[id].proc.Some? {
      QueueAside(s, p, id, ProcList(s.nodes[id].proc.value));
    }
  }

  /** A node that neither is owned by `p` nor waits in its queue is counted down without touching that queue. */
  lemma DecNodeAside(s: State, p: ProcId, id: NodeId, strong: bool)
    requires id in s.nodes ==> s.nodes[id].workQueued != Some(ProcList(p)) && s.nodes[id].proc != Some(p)
    ensures Aside(s, DecNode(s, id, strong, true), DecNode(Emptied(s, p), id, strong, true), p)
  {
    hide LastReferenceGone, Emptied;
    EmptiedSame(s, p);
    if id in s.nodes {
      var n := Lowered(s.nodes[id], strong, true);
      EmptiedSet(s, p, id, n);
      LastAside(SetNode(s, id, n), p, id);
    }
  }

  lemma EmptiedSame(s: State, p: ProcId)
    ensures Emptied(s, p).nodes == s.nodes
  {
  }

  lemma EmptiedSet(s: State, p: ProcId, id: NodeId, n: Node)
    ensures Emptied(SetNode(s, id, n), p) == SetNode(Emptied(s, p), id, n)
  {
  }

  /** Nodes only go, and none changes its owner. */
  ghost predicate OwnersKept(s: State, t: State) {
    forall n {:trigger n in t.nodes} :: n in t.nodes ==> n in s.nodes && t.nodes[n].proc == s.nodes[n].proc
  }

  /** Node work that is queued anew goes to the owner's process queue. */
  ghost predicate QueuedAnew(was: Node, now: Node) {
    now.workQueued == was.workQueued || (was.proc.Some? && now.workQueued == Some(ProcList(was.proc.value)))
  }

  lemma LastWhere(s: State, id: NodeId)
    requires id in s.nodes
    ensures var t := LastReferenceGone(s, id);
            OwnersKept(s, t) && (id in t.nodes ==> QueuedAnew(s.nodes[id], t.nodes[id]))
  {
    hide QueueNodeWork, DropNode;
    var n := s.nodes[id];
    if n.proc.Some? && (n.hasStrong || n.hasWeak) {
      if n.workQueued.None? {
        QueueShape(s, id, ProcList(n.proc.value));
      }
    } else if n.refs == {} && n.localStrong == 0 && n.localWeak == 0 {
      DropShape(s, id);
    }
  }

  lemma DecNodeWhere(s: State, id: NodeId, strong: bool, internal: bool)
    ensures var t := DecNode(s, id, strong, internal);
            OwnersKept(s, t) && (id in t.nodes ==> QueuedAnew(s.nodes[id], t.nodes[id]))
  {
    hide LastReferenceGone;
    if id in s.nodes {
      LastWhere(SetNode(s, id, Lowered(s.nodes[id], strong, internal)), id);
    }
  }

  lemma CleanupAside(s: State, p: ProcId, desc: nat)
    requires Inv(Emptied(s, p)) && Ownerless(s, p)
    ensures Aside(s, CleanupRef(s, p, desc), CleanupRef(Emptied(s, p), p, desc), p)
  {
    hide DecNode, Inv, Ownerless;
    if (p, desc) in s.refs {
      var r := s.refs[(p, desc)];
      var s1 := s.(refs := s.refs - {(p, desc)}, handles := s.handles - {(p, r.node)});
      NotWithProc(s, p, r.node);
      DecNodeAside(s1, p, r.node, true);
      DecNodeWhere(s1, r.node, true, true);
      DecNodeAside(Detached(s, p, desc), p, r.node, false);
    }
  }

  lemma NotWithProc(s: State, p: ProcId, id: NodeId)
    requires Inv(Emptied(s, p)) && Ownerless(s, p)
    ensures id in s.nodes ==> s.nodes[id].workQueued != Some(ProcList(p)) && s.nodes[id].proc != Some(p)
  {
    if id in s.nodes {
      assert QueuedAt(Emptied(s, p), id);
    }
  }

  lemma CleanupOwners(s: State, p: ProcId, desc: nat)
    ensures OwnersKept(s, CleanupRef(s, p, desc))
  {
    hide DecNode;
    if (p, desc) in s.refs {
      var r := s.refs[(p, desc)];
      var s1 := s.(refs := s.refs - {(p, desc)}, handles := s.handles - {(p, r.node)});
      DecNodeWhere(s1, r.node, true, true);
      DecNodeWhere(Detached(s, p, desc), r.node, false, true);
    }
  }

  /** What holds between the release of the nodes of `p` and its end. */
  ghost predicate Leaving(s: State, p: ProcId) {
    Inv(Emptied(s, p)) && Ownerless(s, p) && Stale(s, p)
  }

  lemma LeavingKept(s: State, t: State, t': State, p: ProcId)
    requires Leaving(s, p) && Aside(s, t, t', p) && OwnersKept(s, t) && Inv(t')
    ensures Leaving(t, p)
  {
    hide Inv;
  }

  lemma CleanupLeaving(s: State, p: ProcId, desc: nat)
    requires Leaving(s, p)
    ensures Leaving(CleanupRef(s, p, desc), p)
    ensures CleanupRef(s, p, desc).refs == s.refs - {(p, desc)} && CleanupRef(s, p, desc).procs == s.procs
  {
    hide Inv, CleanupRef;
    CleanupAside(s, p, desc);
    CleanupOwners(s, p, desc);
    CleanupInv(Emptied(s, p), p, desc);
    LeavingKept(s, CleanupRef(s, p, desc), CleanupRef(Emptied(s, p), p, desc), p);
  }

  lemma CleanupInv(s: State, p: ProcId, desc: nat)
    requires Inv(s)
    ensures Inv(CleanupRef(s, p, desc))
    ensures CleanupRef(s, p, desc).refs == s.refs - {(p, desc)} && CleanupRef(s, p, desc).procs == s.procs
  {
    if (p, desc) in s.refs {
      hide CleanupRef, HandleSide, NodeSide, Inv;
      InvSides(s);
      CleanupHandles(s, p, desc);
      CleanupSide(s, p, desc);
      InvSides(CleanupRef(s, p, desc));
    } else {
      assert s.refs - {(p, desc)} == s.refs;
    }
  }

  lemma {:induction false} RefsReleasedLeaving(s: State, p: ProcId, descs: seq<nat>)
    requires Leaving(s, p)
    ensures var t := RefsReleased(s, p, descs);
            && Leaving(t, p) && t.procs == s.procs
            && (forall k :: k in t.refs <==> k in s.refs && !(k.0 == p && k.1 in descs))
  {
    hide Leaving, CleanupRef;
    if descs != [] {
      var last := |descs| - 1;
      RefsReleasedLeaving(s, p, descs[..last]);
      CleanupLeaving(RefsReleased(s, p, descs[..last]), p, descs[last]);
      assert descs == descs[..last] + [descs[last]];
    }
  }

  // ---- the process is gone ----

  /** Dropping the stale queue changes no node. */
  lemma ForgottenNothing(s: State, p: ProcId)
    requires Leaving(s, p)
    ensures Forgotten(s, s.queues[ProcList(p)]) == s
  {
    forall n | n in s.nodes && NodeWork(n) in s.queues[ProcList(p)] ensures s.nodes[n].workQueued.None? {
      assert QueuedAt(Emptied(s, p), n);
    }
    assert Forgotten(s, s.queues[ProcList(p)]).nodes == s.nodes;
  }

  lemma ProcGoneQueued(s: State, p: ProcId)
    requires Queued(Emptied(s, p)) && Ownerless(s, p)
    ensures Queued(s.(queues := s.queues - {ProcList(p)}, procs := s.procs - {p}))
  {
    hide Times;
    var e, t := Emptied(s, p), s.(queues := s.queues - {ProcList(p)}, procs := s.procs - {p});
    forall n | n in t.nodes ensures QueuedAt(t, n) {
      assert QueuedAt(e, n);
      forall l | l in t.queues ensures Times(t.queues[l], n) == Times(e.queues[l], n) {
      }
      if t.nodes[n].workQueued.Some? {
        assert t.nodes[n].workQueued.value in e.queues;
      }
    }
    forall l, n | l in t.queues && Times(t.queues[l], n) > 0 ensures n in t.nodes {
      assert Times(e.queues[l], n) > 0;
    }
  }

  lemma ProcGoneHandles(s: State, p: ProcId)
    requires HandleSide(Emptied(s, p)) && (forall k :: k in s.refs ==> k.0 != p)
    ensures HandleSide(s.(queues := s.queues - {ProcList(p)}, procs := s.procs - {p}))
  {
    hide Holders;
    var t := s.(queues := s.queues - {ProcList(p)}, procs := s.procs - {p});
    forall n | n in t.nodes ensures t.nodes[n].internalStrong == |Holders(t, n)| {
      SameHolders(Emptied(s, p), t, n);
    }
    forall m, q | m in t.nodes ensures q in t.nodes[m].refs <==> (q, m) in t.handles {
      assert q in s.nodes[m].refs <==> (q, m) in s.handles;
    }
  }

  lemma ProcGoneOwners(s: State, p: ProcId)
    requires var e := Emptied(s, p); Owners(e) && Lists(e) && Views(e) && Fresh(e)
    requires Ownerless(s, p)
    ensures var t := s.(queues := s.queues - {ProcList(p)}, procs := s.procs - {p});
            Owners(t) && Lists(t) && Views(t) && Fresh(t)
  {
    var t := s.(queues := s.queues - {ProcList(p)}, procs := s.procs - {p});
    forall q | q in t.procs ensures ProcList(q) in t.queues {
      assert q in s.procs;
    }
    forall l | l in t.queues ensures l.proc in t.procs {
      assert l in Emptied(s, p).queues;
    }
  }

  lemma ProcGoneInv(s: State, p: ProcId)
    requires Leaving(s, p) && (forall k :: k in s.refs ==> k.0 != p)
    ensures Inv(s.(queues := s.queues - {ProcList(p)}, procs := s.procs - {p}))
  {
    hide Queued, HandleSide;
    InvSides(Emptied(s, p));
    ProcGoneQueued(s, p);
    ProcGoneHandles(s, p);
    ProcGoneOwners(s, p);
    InvSides(s.(queues := s.queues - {ProcList(p)}, procs := s.procs - {p}));
  }

  /** The loops of `release_proc` go over all of the process's threads and handles. */
  ghost predicate All(s: State, p: ProcId, tids: seq<Tid>, descs: seq<nat>) {
    && (forall l :: l in s.queues && l.ThreadList? && l.proc == p ==> l.tid in tids)
    && (forall k :: k in s.refs && k.0 == p ==> k.1 in descs)
  }

  /** Releasing a process keeps the invariant and leaves none of its handles behind. */
  lemma ReleaseProcInv(s: State, p: ProcId, tids: seq<Tid>, descs: seq<nat>)
    requires Inv(s) && All(s, p, tids, descs)
    ensures Inv(ReleaseProc(s, p, tids, descs))
    ensures p in s.procs ==> p !in ReleaseProc(s, p, tids, descs).procs
  {
    hide Inv, ThreadsReleased, NodesReleased, RefsReleased, Leaving, Forgotten;
    if p in s.procs {
      var m := ManagerReleased(s, p);
      ContextsEdited(s, m.contexts);
      var a := ThreadsReleased(m, p, tids);
      ThreadsReleasedInv(m, p, tids);
      BecomesLeaving(a, p);
      RefsReleasedLeaving(NodesReleased(a, p), p, descs);
      var b := RefsReleased(NodesReleased(a, p), p, descs);
      LeavingQueue(b, p);
      ForgottenNothing(b, p);
      ProcGoneInv(b, p);
    }
  }

  lemma LeavingQueue(s: State, p: ProcId)
    requires Leaving(s, p)
    ensures ProcList(p) in s.queues
  {
  }

  lemma BecomesLeaving(s: State, p: ProcId)
    requires Inv(s) && p in s.procs
             && (forall l {:trigger l in s.queues} :: l in s.queues && l.proc == p ==> l == ProcList(p))
    ensures Leaving(NodesReleased(s, p), p) && NodesReleased(s, p).refs == s.refs
            && NodesReleased(s, p).procs == s.procs
  {
    NodesReleasedInv(s, p);
    NodesReleasedStale(s, p);
  }
}
