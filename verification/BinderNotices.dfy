/** What a node's owner is told, and that no release is lost. */
module BinderNotices {
  import opened Common
  import opened BinderState
  import opened BinderInvariant
  import opened BinderSteps
  import opened BinderRelease

  // ---- commands follow the nested alternation ----

  /** What the owner believes from the commands it has read. */
  datatype View = View(weak: bool, strong: bool)

  /** What an owner may be told next: a strong reference only on top of a weak one. */
  predicate Legal(v: View, c: Command) {
    match c
    case INCREFS => !v.weak && !v.strong
    case ACQUIRE => v.weak && !v.strong
    case RELEASE => v.weak && v.strong
    case DECREFS => v.weak && !v.strong
  }

  function Told1(v: View, c: Command): View {
    match c
    case INCREFS => v.(weak := true)
    case ACQUIRE => v.(strong := true)
    case RELEASE => v.(strong := false)
    case DECREFS => v.(weak := false)
  }

  /** The view after a list of commands, if each was legal. */
  function Replay(v: View, cs: seq<Command>): Option<View>
    decreases |cs|
  {
    if cs == [] then Some(v)
    else if !Legal(v, cs[0]) then None
    else Replay(Told1(v, cs[0]), cs[1..])
  }

  /** Reading a node's work tells the owner exactly how its references stand, by legal commands. */
  lemma CommandsReplay(n: Node)
    requires n.hasStrong ==> n.hasWeak
    ensures Replay(View(n.hasWeak, n.hasStrong), Commands(n)) == Some(View(WeakNow(n), StrongNow(n)))
  {
    var v := View(n.hasWeak, n.hasStrong);
    var cs := Commands(n);
    if cs != [] {
      var w := Told1(v, cs[0]);
      assert Replay(v, cs) == Replay(w, cs[1..]);
      if |cs| == 2 {
        assert Replay(w, cs[1..]) == Replay(Told1(w, cs[1]), cs[2..]);
      }
    }
  }

  // ---- releases are not lost ----

  /** An owned node its owner believes held more than it is has its work queued. */
  ghost predicate StrongHeard(n: Node) {
    n.proc.Some? && n.hasStrong && !StrongNow(n) ==> n.workQueued.Some?
  }

  ghost predicate Heard(n: Node) {
    StrongHeard(n) && (n.proc.Some? && n.hasWeak && !WeakNow(n) ==> n.workQueued.Some?)
  }

  ghost predicate HeardBut(s: State, id: NodeId) {
    forall n {:trigger n in s.nodes} :: n in s.nodes && n != id ==> Heard(s.nodes[n])
  }

  /** In every state, what the owners still have to hear is queued for them. */
  ghost predicate Lossless(s: State) {
    forall n {:trigger n in s.nodes} :: n in s.nodes ==> Heard(s.nodes[n])
  }

  lemma HeardElsewhere(s: State, t: State, id: NodeId)
    requires HeardBut(s, id) && TouchesOnly(s, t, id) && (id in t.nodes ==> Heard(t.nodes[id]))
    ensures Lossless(t)
  {
  }

  lemma LastHeard(s: State, id: NodeId)
    requires HeardBut(s, id) && id in s.nodes
    ensures Lossless(LastReferenceGone(s, id))
  {
    hide TouchesOnly, QueueNodeWork, DropNode;
    var n, t := s.nodes[id], LastReferenceGone(s, id);
    LastShape(s, id);
    if n.proc.Some? && (n.hasStrong || n.hasWeak) && n.workQueued.None? {
      QueueShape(s, id, ProcList(n.proc.value));
    }
    HeardElsewhere(s, t, id);
  }

  /** Whichever count goes, the owner hears of the last one. */
  lemma DecNodeHeard(s: State, id: NodeId, strong: bool, internal: bool)
    requires HeardBut(s, id) && (id in s.nodes && !strong ==> StrongHeard(s.nodes[id]))
    ensures Lossless(DecNode(s, id, strong, internal))
  {
    hide LastReferenceGone;
    if id in s.nodes {
      LastHeard(SetNode(s, id, Lowered(s.nodes[id], strong, internal)), id);
    }
  }

  lemma IncNodeHeard(s: State, id: NodeId, strong: bool, internal: bool, target: Option<(ProcId, Tid)>)
    requires Lossless(s) && IncNode(s, id, strong, internal, target).Ok?
    ensures Lossless(IncNode(s, id, strong, internal, target).value)
  {
    hide TouchesOnly, QueueNodeWork, DequeueNodeWork;
    var n := s.nodes[id];
    var m := Raised(n, strong, internal);
    var r, t := SetNode(s, id, m), IncNode(s, id, strong, internal, target).value;
    assert !strong && internal ==> r.nodes == s.nodes;
    IncNodeShape(s, id, strong, internal, target);
    if target.Some? {
      var l := ThreadList(target.value.0, target.value.1);
      if strong && !n.hasStrong {
        DequeueShape(r, id);
        QueueShape(DequeueNodeWork(r, id), id, l);
      } else if !strong && !n.hasWeak && n.workQueued.None? {
        QueueShape(r, id, l);
      }
    }
    HeardElsewhere(s, t, id);
  }

  lemma CleanupHeard(s: State, p: ProcId, desc: nat)
    requires Lossless(s)
    ensures Lossless(CleanupRef(s, p, desc))
  {
    hide DecNode;
    if (p, desc) in s.refs {
      var r := s.refs[(p, desc)];
      DecNodeHeard(s.(refs := s.refs - {(p, desc)}, handles := s.handles - {(p, r.node)}), r.node, true, true);
      DecNodeHeard(Detached(s, p, desc), r.node, false, true);
    }
  }

  lemma DecRefHeard(s: State, p: ProcId, desc: nat, strong: bool)
    requires Lossless(s) && DecRef(s, p, desc, strong).Ok?
    ensures Lossless(DecRef(s, p, desc, strong).value)
  {
    hide DecNode, CleanupRef;
    var r := s.refs[(p, desc)];
    if (if strong then r.strong else r.weak) != 0 {
      var r' := if strong then r.(strong := r.strong - 1) else r.(weak := r.weak - 1);
      var t := s.(refs := s.refs[(p, desc) := r']);
      DecNodeHeard(t, r.node, true, true);
      CleanupHeard(if strong && r'.strong == 0 then DecNode(t, r.node, true, true) else t, p, desc);
    }
  }

  lemma IncRefHeard(s: State, p: ProcId, desc: nat, strong: bool, target: Option<(ProcId, Tid)>)
    requires Lossless(s) && (p, desc) in s.refs && IncRef(s, p, desc, strong, target).Ok?
    ensures Lossless(IncRef(s, p, desc, strong, target).value)
  {
    hide IncNode;
    var r := s.refs[(p, desc)];
    if (if strong then r.strong else r.weak) == 0 {
      IncNodeHeard(s, r.node, strong, true, target);
    }
  }

  lemma IncRefForNodeHeard(s: State, p: ProcId, node: NodeId, strong: bool, target: Option<(ProcId, Tid)>, free: nat)
    requires Lossless(s) && ((p, node) in s.handles ==> (p, s.handles[(p, node)]) in s.refs)
    ensures Lossless(IncRefForNode(s, p, node, strong, target, free).0)
  {
    hide IncRef, CleanupRef;
    if p !in s.procs {
    } else if (p, node) in s.handles {
      if IncRef(s, p, s.handles[(p, node)], strong, target).Ok? {
        IncRefHeard(s, p, s.handles[(p, node)], strong, target);
      }
    } else if node in s.nodes {
      var t := AddRef(s, p, node, free);
      assert Lossless(t);
      if IncRef(t, p, free, strong, target).Ok? {
        IncRefHeard(t, p, free, strong, target);
      } else {
        CleanupHeard(t, p, free);
      }
    }
  }

  lemma UpdateRefHeard(s: State, p: ProcId, desc: nat, increment: bool, strong: bool)
    requires Lossless(s) && UpdateRefForHandle(s, p, desc, increment, strong).Ok?
    ensures Lossless(UpdateRefForHandle(s, p, desc, increment, strong).value)
  {
    hide IncRef, DecRef;
    if increment {
      IncRefHeard(s, p, desc, strong, None);
    } else {
      DecRefHeard(s, p, desc, strong);
    }
  }

  lemma ReadHeard(s: State, l: WorkList)
    requires Lossless(s) && l in s.queues && s.queues[l] != []
    ensures Lossless(ReadFront(s, l).0)
  {
  }

  lemma DoneHeard(s: State, p: ProcId, ptr: nat, cookie: nat, strong: bool)
    requires Lossless(s)
    ensures Lossless(Done(s, p, ptr, cookie, strong))
  {
    hide DecNode;
    if (p, ptr) in s.owned && s.owned[(p, ptr)] in s.nodes {
      var id := s.owned[(p, ptr)];
      var n := s.nodes[id];
      var m := if strong then n.(pendingStrong := false) else n.(pendingWeak := false);
      DecNodeHeard(SetNode(s, id, m), id, strong, false);
    }
  }

  lemma ManagerHeard(s: State, p: ProcId, ptr: nat, cookie: nat)
    requires Lossless(s) && p in s.procs && s.procs[p].context in s.contexts
    requires (p, ptr) in s.owned ==> s.owned[(p, ptr)] in s.nodes
    requires SetContextManager(s, p, ptr, cookie).Ok?
    ensures Lossless(SetContextManager(s, p, ptr, cookie).value)
  {
  }

  /** The owner believes the node held no more than it is. */
  predicate Settled(n: Node) {
    (n.hasStrong ==> StrongNow(n)) && (n.hasWeak ==> WeakNow(n))
  }

  /** A thread that leaves takes the node work in its queue with it: a release is lost exactly when some
      node waiting there is not settled. */
  lemma ThreadExitLossless(s: State, p: ProcId, t: Tid)
    requires Inv(s) && Lossless(s)
    ensures Lossless(ThreadRelease(s, p, t)) <==>
            forall n {:trigger n in s.nodes} ::
                n in s.nodes && s.nodes[n].workQueued == Some(ThreadList(p, t)) ==> Settled(s.nodes[n])
  {
    hide Times, StrongNow, WeakNow;
    var l, u := ThreadList(p, t), ThreadRelease(s, p, t);
    forall n | n in s.nodes
      ensures n in u.nodes && u.nodes[n] == if s.nodes[n].workQueued == Some(l) then s.nodes[n].(workQueued := None)
              else s.nodes[n]
      ensures s.nodes[n].workQueued == Some(l) ==> s.nodes[n].proc.Some?
    {
      assert QueuedAt(s, n);
      if l in s.queues {
        InQueue(s.queues[l], n);
      }
    }
    forall n | n in s.nodes ensures Heard(u.nodes[n]) <==> s.nodes[n].workQueued == Some(l) ==> Settled(s.nodes[n]) {
      SameNow(s.nodes[n], u.nodes[n]);
    }
    assert forall n :: n in u.nodes ==> n in s.nodes;
  }

  lemma SameNow(a: Node, b: Node)
    requires SameCounts(a, b)
    ensures StrongNow(a) == StrongNow(b) && WeakNow(a) == WeakNow(b)
  {
  }

  // ---- a process leaves ----

  /** Every owner but `p` has what it still has to hear queued. */
  ghost predicate OthersHeard(s: State, p: ProcId) {
    forall n {:trigger n in s.nodes} :: n in s.nodes && s.nodes[n].proc != Some(p) ==> Heard(s.nodes[n])
  }

  /** The queues of a process hold node work of its own nodes only. */
  lemma ThreadReleaseOthers(s: State, p: ProcId, t: Tid)
    requires Inv(s) && OthersHeard(s, p)
    ensures OthersHeard(ThreadRelease(s, p, t), p)
  {
    hide Times, Heard;
    var l, u := ThreadList(p, t), ThreadRelease(s, p, t);
    if l in s.queues {
      forall n | n in u.nodes && u.nodes[n].proc != Some(p) ensures Heard(u.nodes[n]) {
        assert QueuedAt(s, n);
        InQueue(s.queues[l], n);
      }
    }
  }

  lemma {:induction false} ThreadsReleasedOthers(s: State, p: ProcId, tids: seq<Tid>)
    requires Inv(s) && OthersHeard(s, p)
    ensures OthersHeard(ThreadsReleased(s, p, tids), p)
  {
    hide Inv, OthersHeard, ThreadRelease;
    if tids != [] {
      var last := |tids| - 1;
      ThreadsReleasedOthers(s, p, tids[..last]);
      ThreadsReleasedInv(s, p, tids[..last]);
      ThreadReleaseOthers(ThreadsReleased(s, p, tids[..last]), p, tids[last]);
    }
  }

  /** The nodes of `p` go or have no owner left to hear of anything. */
  lemma NodesReleasedHeard(s: State, p: ProcId)
    requires OthersHeard(s, p)
    ensures Lossless(NodesReleased(s, p))
  {
    hide StrongNow, WeakNow;
  }

  lemma {:induction false} RefsReleasedHeard(s: State, p: ProcId, descs: seq<nat>)
    requires Lossless(s)
    ensures Lossless(RefsReleased(s, p, descs))
  {
    hide Lossless, CleanupRef;
    if descs != [] {
      var last := |descs| - 1;
      RefsReleasedHeard(s, p, descs[..last]);
      CleanupHeard(RefsReleased(s, p, descs[..last]), p, descs[last]);
    }
  }

  /** A process that leaves loses no release: what its queues hold is for itself. */
  lemma ProcExitLossless(s: State, p: ProcId, tids: seq<Tid>, descs: seq<nat>)
    requires Inv(s) && Lossless(s) && All(s, p, tids, descs)
    ensures Lossless(ReleaseProc(s, p, tids, descs))
  {
    hide Inv, ThreadsReleased, NodesReleased, RefsReleased, Leaving, Forgotten, Heard;
    if p in s.procs {
      var m := ManagerReleased(s, p);
      ContextsEdited(s, m.contexts);
      var a := ThreadsReleased(m, p, tids);
      ThreadsReleasedInv(m, p, tids);
      ThreadsReleasedOthers(m, p, tids);
      BecomesLeaving(a, p);
      NodesReleasedHeard(a, p);
      RefsReleasedLeaving(NodesReleased(a, p), p, descs);
      RefsReleasedHeard(NodesReleased(a, p), p, descs);
      var b := RefsReleased(NodesReleased(a, p), p, descs);
      LeavingQueue(b, p);
      ForgottenNothing(b, p);
    }
  }
}
