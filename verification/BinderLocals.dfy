/** What taking, giving back and acknowledging a local reference does to a node, over the state before. */
module BinderLocals {
  import opened Common
  import opened BinderState
  import opened BinderInvariant
  import opened BinderSteps

  /** The same node with other local counts, queued somewhere. */
  ghost predicate Recount(n: Node, was: Node, strong: int, weak: int) {
    n.localStrong == strong && n.localWeak == weak
    && n.(localStrong := was.localStrong, localWeak := was.localWeak, workQueued := was.workQueued) == was
  }

  /** But for one local reference of a kind, nothing keeps a node: no handle, no other local reference, and no owner
      that believes it held. */
  ghost predicate LastTie(n: Node, strong: bool) {
    && n.refs == {} && n.localStrong <= (if strong then 1 else 0) && n.localWeak <= (if strong then 0 else 1)
    && !(n.proc.Some? && (n.hasStrong || n.hasWeak))
  }

  /** But for one local reference of a kind, a node is not held that way. */
  ghost predicate LastOfKind(n: Node, strong: bool) {
    if strong then n.localStrong <= 1 && n.internalStrong == 0 else n.localWeak <= 1 && n.refs == {}
  }

  ghost function GivenBack(n: nat): nat {
    if n > 0 then n - 1 else 0
  }

  /** A node nobody has a handle on has no internal count. */
  lemma NoRefsNoCount(s: State, id: NodeId)
    requires Inv(s) && id in s.nodes && s.nodes[id].refs == {}
    ensures s.nodes[id].internalStrong == 0
  {
    assert forall k {:trigger k in s.handles} :: k in s.handles && k.1 == id ==> k.0 in s.nodes[id].refs;
    NoHoldersWithoutHandles(s, id);
  }

  /** The queues once the work of a node has moved from where it stood, if anywhere, to the end of `to`. */
  ghost function Requeued(queues: map<WorkList, seq<Work>>, id: NodeId, from: Option<WorkList>, to: WorkList)
      : map<WorkList, seq<Work>>
  {
    var rest := Unqueued(queues, id, from);
    if to in rest then rest[to := rest[to] + [NodeWork(id)]] else rest
  }

  ghost function Unqueued(queues: map<WorkList, seq<Work>>, id: NodeId, from: Option<WorkList>)
      : map<WorkList, seq<Work>>
  {
    if from.Some? && from.value in queues
    then queues[from.value := RemoveFirst(queues[from.value], NodeWork(id))] else queues
  }

  lemma DequeuedQueues(s: State, id: NodeId)
    requires id in s.nodes
    ensures DequeueNodeWork(s, id).queues == Unqueued(s.queues, id, s.nodes[id].workQueued)
  {
    hide RemoveFirst;
  }

  lemma QueuedLast(s: State, id: NodeId, l: WorkList)
    requires id in s.nodes
    ensures QueueNodeWork(s, id, l).queues == Requeued(s.queues, id, None, l)
  {
  }

  lemma MovedLast(s: State, id: NodeId, l: WorkList)
    requires id in s.nodes && id in DequeueNodeWork(s, id).nodes
    ensures QueueNodeWork(DequeueNodeWork(s, id), id, l).queues == Requeued(s.queues, id, s.nodes[id].workQueued, l)
  {
    hide DequeueNodeWork, QueueNodeWork;
    DequeuedQueues(s, id);
    QueuedLast(DequeueNodeWork(s, id), id, l);
  }

  /** Giving back a local reference: the node goes exactly when that was its last tie; otherwise that count is one less,
      every other as it was, and its owner is to hear of it exactly when it loses the last hold of that kind. */
  lemma LocalGiven(s: State, id: NodeId, strong: bool)
    requires Inv(s) && id in s.nodes
    ensures var t, n := DecNode(s, id, strong, false), s.nodes[id];
            && TouchesOnly(s, t, id)
            && (id !in t.nodes <==> LastTie(n, strong))
            && (id in t.nodes ==>
                  && t.owned == s.owned
                  && Recount(t.nodes[id], n, if strong then GivenBack(n.localStrong) else n.localStrong,
                             if strong then n.localWeak else GivenBack(n.localWeak))
                  && (if LastOfKind(n, strong) && n.proc.Some? && (n.hasStrong || n.hasWeak) && n.workQueued.None?
                      then t.nodes[id].workQueued == Some(ProcList(n.proc.value))
                           && t.queues == Requeued(s.queues, id, None, ProcList(n.proc.value))
                      else t.nodes[id].workQueued == n.workQueued && t.queues == s.queues))
            && (id !in t.nodes && n.proc.Some? ==> t.owned == s.owned - {(n.proc.value, n.ptr)})
  {
    hide Inv, DecNode, TouchesOnly, DropNode, Requeued;
    if s.nodes[id].refs == {} {
      NoRefsNoCount(s, id);
    }
    DecNodeShape(s, id, strong, false);
    NodeGiven(s, id, strong);
  }

  lemma NodeGiven(s: State, id: NodeId, strong: bool)
    requires id in s.nodes
    ensures var t, n, m := DecNode(s, id, strong, false), s.nodes[id], Lowered(s.nodes[id], strong, false);
            var told := n.proc.Some? && (n.hasStrong || n.hasWeak);
            && (id !in t.nodes <==>
                 LastOfKind(n, strong) && !told && m.refs == {} && m.localStrong == 0 && m.localWeak == 0)
            && (id in t.nodes ==>
                  && t.owned == s.owned
                  && (if LastOfKind(n, strong) && told && n.workQueued.None?
                      then t.nodes[id] == m.(workQueued := Some(ProcList(n.proc.value)))
                           && t.queues == Requeued(s.queues, id, None, ProcList(n.proc.value))
                      else t.nodes[id] == m && t.queues == s.queues))
            && (id !in t.nodes && n.proc.Some? ==> t.owned == s.owned - {(n.proc.value, n.ptr)})
  {
    hide LastReferenceGone, Requeued;
    LastHold(SetNode(s, id, Lowered(s.nodes[id], strong, false)), id);
  }

  /** The node is queued for an owner that believes it held, or goes if nothing keeps it. */
  lemma LastHold(s: State, id: NodeId)
    requires id in s.nodes
    ensures var t, n := LastReferenceGone(s, id), s.nodes[id];
            var told := n.proc.Some? && (n.hasStrong || n.hasWeak);
            && (id !in t.nodes <==> !told && n.refs == {} && n.localStrong == 0 && n.localWeak == 0)
            && (id in t.nodes ==>
                  && t.owned == s.owned
                  && (if told && n.workQueued.None?
                      then t.nodes[id] == n.(workQueued := Some(ProcList(n.proc.value)))
                           && t.queues == Requeued(s.queues, id, None, ProcList(n.proc.value))
                      else t.nodes[id] == n && t.queues == s.queues))
            && (id !in t.nodes && n.proc.Some? ==> t.owned == s.owned - {(n.proc.value, n.ptr)})
  {
    hide QueueNodeWork, DropNode, Requeued;
    var n := s.nodes[id];
    if n.proc.Some? && (n.hasStrong || n.hasWeak) {
      if n.workQueued.None? {
        QueueShape(s, id, ProcList(n.proc.value));
        QueuedLast(s, id, ProcList(n.proc.value));
      }
    } else if n.refs == {} && n.localStrong == 0 && n.localWeak == 0 {
      DropShape(s, id);
      DropTable(s, id);
    }
  }

  lemma DropTable(s: State, id: NodeId)
    requires id in s.nodes
    ensures s.nodes[id].proc.Some? ==>
              DropNode(s, id).owned == s.owned - {(s.nodes[id].proc.value, s.nodes[id].ptr)}
  {
    hide DequeueNodeWork;
    DequeueShape(s, id);
  }

  /** Where a node's work stands once a reference of a kind is taken: with the thread that is to tell of it, when the
      node's owner does not know yet. */
  ghost function QueuedFor(n: Node, strong: bool, target: Option<(ProcId, Tid)>): Option<WorkList> {
    if target.Some? && (if strong then !n.hasStrong else !n.hasWeak && n.workQueued.None?)
    then Some(ThreadList(target.value.0, target.value.1))
    else n.workQueued
  }

  /** And the queues then: the work is moved to the end of that thread's. */
  ghost function QueuesFor(s: State, id: NodeId, strong: bool, target: Option<(ProcId, Tid)>): map<WorkList, seq<Work>>
    requires id in s.nodes
  {
    var n := s.nodes[id];
    if target.Some? && (if strong then !n.hasStrong else !n.hasWeak && n.workQueued.None?)
    then Requeued(s.queues, id, n.workQueued, ThreadList(target.value.0, target.value.1))
    else s.queues
  }

  lemma TakenQueued(s: State, id: NodeId, strong: bool, internal: bool, target: Option<(ProcId, Tid)>)
    requires id in s.nodes && IncNode(s, id, strong, internal, target).Ok?
    ensures var t := IncNode(s, id, strong, internal, target).value;
            && id in t.nodes && t.nodes[id].workQueued == QueuedFor(s.nodes[id], strong, target)
            && t.queues == QueuesFor(s, id, strong, target)
  {
    hide DequeueNodeWork, QueueNodeWork, Requeued;
    var u := SetNode(s, id, Raised(s.nodes[id], strong, internal));
    assert !strong && internal ==> u.nodes == s.nodes;
    DequeueShape(u, id);
    if target.Some? {
      var l := ThreadList(target.value.0, target.value.1);
      QueueShape(u, id, l);
      QueueShape(DequeueNodeWork(u, id), id, l);
      QueuedLast(u, id, l);
      MovedLast(u, id, l);
    }
  }

  /** Taking a local reference: that count is one more, every other as it was. */
  lemma LocalTaken(s: State, id: NodeId, strong: bool, target: Option<(ProcId, Tid)>)
    requires id in s.nodes
    ensures IncNode(s, id, strong, false, target).Ok?
    ensures var t, n := IncNode(s, id, strong, false, target).value, s.nodes[id];
            && TouchesOnly(s, t, id) && id in t.nodes && t.owned == s.owned
            && Recount(t.nodes[id], n, if strong then n.localStrong + 1 else n.localStrong,
                       if strong then n.localWeak else n.localWeak + 1)
            && t.nodes[id].workQueued == QueuedFor(n, strong, target) && t.queues == QueuesFor(s, id, strong, target)
  {
    hide IncNode, TouchesOnly, Requeued;
    IncNodeOk(s, id, strong, false, target);
    IncNodeShape(s, id, strong, false, target);
    TakenQueued(s, id, strong, false, target);
  }

  lemma RefTaken(s: State, p: ProcId, desc: nat, strong: bool, target: Option<(ProcId, Tid)>)
    requires (p, desc) in s.refs && s.refs[(p, desc)].node in s.nodes && IncRef(s, p, desc, strong, target).Ok?
    ensures var t, r := IncRef(s, p, desc, strong, target).value, s.refs[(p, desc)];
            var n, first := s.nodes[r.node], (if strong then r.strong else r.weak) == 0;
            && r.node in t.nodes
            && t.nodes[r.node] == n.(internalStrong := n.internalStrong + One(strong && first),
                                     workQueued := if first then QueuedFor(n, strong, target) else n.workQueued)
            && t.nodes.Keys == s.nodes.Keys
            && (forall k {:trigger t.nodes[k]} :: k in t.nodes && k != r.node ==> t.nodes[k] == s.nodes[k])
  {
    hide IncNode;
    var r := s.refs[(p, desc)];
    if (if strong then r.strong else r.weak) == 0 {
      IncNodeShape(s, r.node, strong, true, target);
      TakenQueued(s, r.node, strong, true, target);
    }
  }

  /** The nodes once the handle `desc` on `node` is counted: the process is among its holders, a first strong count of
      the handle is counted, and a first count of its kind may have to be told of. Nothing else changes. */
  ghost predicate Handed(s: State, t: State, p: ProcId, node: NodeId, desc: nat, strong: bool,
      target: Option<(ProcId, Tid)>)
    requires node in s.nodes
  {
    var n := s.nodes[node];
    var r := if (p, desc) in s.refs then s.refs[(p, desc)] else Ref(node, 0, 0);
    var first := (if strong then r.strong else r.weak) == 0;
    t.nodes == s.nodes[node := n.(refs := n.refs + {p}, internalStrong := n.internalStrong + One(strong && first),
                                  workQueued := if first then QueuedFor(n, strong, target) else n.workQueued)]
  }

  lemma HandedNode(s: State, p: ProcId, node: NodeId, strong: bool, target: Option<(ProcId, Tid)>, free: nat)
    requires Inv(s) && node in s.nodes && (p, free) !in s.refs && IncRefForNode(s, p, node, strong, target, free).1.Ok?
    ensures var (t, r) := IncRefForNode(s, p, node, strong, target, free);
            Handed(s, t, p, node, r.value, strong, target)
  {
    hide Inv, IncRef, AddRef, CleanupRef, HandleSide, Handed;
    InvSides(s);
    HandleSideIsTables(s);
    if (p, node) in s.handles {
      HandleNamesNode(s, p, node);
      HandedAgain(s, p, node, strong, target);
    } else {
      AddRefIs(s, p, node, free);
      HandedFirst(s, p, node, strong, target, free);
    }
  }

  lemma HandedAgain(s: State, p: ProcId, node: NodeId, strong: bool, target: Option<(ProcId, Tid)>)
    requires Inv(s) && node in s.nodes && (p, node) in s.handles
    requires var desc := s.handles[(p, node)];
             (p, desc) in s.refs && s.refs[(p, desc)].node == node && IncRef(s, p, desc, strong, target).Ok?
    ensures var desc := s.handles[(p, node)];
            Handed(s, IncRef(s, p, desc, strong, target).value, p, node, desc, strong, target)
  {
    hide Inv, IncRef, QueuedFor;
    HolderIsBack(s, p, node);
    RefTaken(s, p, s.handles[(p, node)], strong, target);
  }

  lemma HandedFirst(s: State, p: ProcId, node: NodeId, strong: bool, target: Option<(ProcId, Tid)>, free: nat)
    requires node in s.nodes && (p, free) !in s.refs
    requires var t := AddRef(s, p, node, free); (p, free) in t.refs && IncRef(t, p, free, strong, target).Ok?
    ensures Handed(s, IncRef(AddRef(s, p, node, free), p, free, strong, target).value, p, node, free, strong, target)
  {
    hide IncRef, AddRef;
    AddRefIs(s, p, node, free);
    AddRefOthers(s, p, node, free);
    RefTaken(AddRef(s, p, node, free), p, free, strong, target);
  }

  lemma HolderIsBack(s: State, p: ProcId, node: NodeId)
    requires Inv(s) && node in s.nodes && (p, node) in s.handles
    ensures s.nodes[node].refs + {p} == s.nodes[node].refs
  {
    assert p in s.nodes[node].refs;
  }

  lemma AddRefOthers(s: State, p: ProcId, node: NodeId, desc: nat)
    requires node in s.nodes
    ensures AddRef(s, p, node, desc).nodes == s.nodes[node := s.nodes[node].(refs := s.nodes[node].refs + {p})]
  {
  }

  /** Taken and given back: every count is as it was, or nothing kept the node and it is gone. */
  lemma TakenThenGiven(s: State, id: NodeId, strong: bool, target: Option<(ProcId, Tid)>)
    requires Inv(s) && id in s.nodes && TargetOk(s, id, target)
    ensures var taken := IncNode(s, id, strong, false, target);
            && taken.Ok?
            && var t, n := DecNode(taken.value, id, strong, false), s.nodes[id];
               && TouchesOnly(s, t, id)
               && (id in t.nodes ==> Recount(t.nodes[id], n, n.localStrong, n.localWeak))
               && (id !in t.nodes <==>
                     && n.refs == {} && n.localStrong == 0 && n.localWeak == 0
                     && !(n.proc.Some? && (n.hasStrong || n.hasWeak)))
  {
    hide Inv, IncNode, DecNode, TargetOk;
    LocalTaken(s, id, strong, target);
    LocalIncInv(s, id, strong, target);
    LocalGiven(IncNode(s, id, strong, false, target).value, id, strong);
  }

  /** The owner is waited for: the pointer and cookie are those of a node whose reference of the kind is pending. */
  ghost predicate Awaited(s: State, p: ProcId, ptr: nat, cookie: nat, strong: bool) {
    && (p, ptr) in s.owned && s.owned[(p, ptr)] in s.nodes
    && var n := s.nodes[s.owned[(p, ptr)]];
       n.cookie == cookie && (if strong then n.pendingStrong else n.pendingWeak)
  }

  ghost function Acknowledged(n: Node, strong: bool): Node {
    if strong then n.(pendingStrong := false) else n.(pendingWeak := false)
  }

  /** An acknowledgement gives back the local reference it was waited for with, and is waited for no more; any other
      does nothing. */
  lemma AcknowledgedIs(s: State, p: ProcId, ptr: nat, cookie: nat, strong: bool)
    requires Inv(s)
    ensures var t := Done(s, p, ptr, cookie, strong);
            && (!Awaited(s, p, ptr, cookie, strong) ==> t == s)
            && (Awaited(s, p, ptr, cookie, strong) ==>
                  var id := s.owned[(p, ptr)];
                  var n := Acknowledged(s.nodes[id], strong);
                  && TouchesOnly(s, t, id)
                  && (id !in t.nodes <==> LastTie(n, strong))
                  && (id in t.nodes ==>
                        Recount(t.nodes[id], n, if strong then GivenBack(n.localStrong) else n.localStrong,
                                if strong then n.localWeak else GivenBack(n.localWeak))))
  {
    hide Inv, DecNode;
    if Awaited(s, p, ptr, cookie, strong) {
      var id := s.owned[(p, ptr)];
      ViewsImply(s, id);
      FlagsEdited(s, id, Acknowledged(s.nodes[id], strong));
      LocalGiven(SetNode(s, id, Acknowledged(s.nodes[id], strong)), id, strong);
    }
  }
}
