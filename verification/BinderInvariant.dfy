/** What every step of the binder driver keeps: the redundant parts of its state agree. */
module BinderInvariant {
  import opened Common
  import opened BinderState

  // ---- the parts of the invariant ----

  /** The two handle tables of every process are exact inverses. */
  ghost predicate Tables(s: State) {
    && (forall k {:trigger k in s.refs} :: k in s.refs ==>
          k.0 in s.procs && (k.0, s.refs[k].node) in s.handles && s.handles[(k.0, s.refs[k].node)] == k.1)
    && (forall k {:trigger k in s.handles} :: k in s.handles ==>
          (k.0, s.handles[k]) in s.refs && s.refs[(k.0, s.handles[k])].node == k.1)
  }

  /** A node's back-references are exactly the processes with a handle on it, and no handle names a
      node that is gone. */
  ghost predicate BackRefs(s: State) {
    && (forall n, p {:trigger p in s.nodes[n].refs} :: n in s.nodes ==> (p in s.nodes[n].refs <==> (p, n) in s.handles))
    && (forall k {:trigger k in s.handles} :: k in s.handles ==> k.1 in s.nodes)
  }

  /** The handle entry `k` on a node has a strong count. */
  ghost predicate HoldsStrong(s: State, k: (ProcId, NodeId)) {
    k in s.handles && (k.0, s.handles[k]) in s.refs && s.refs[(k.0, s.handles[k])].strong > 0
  }

  /** The holders of a node with a strong count. */
  ghost function Holders(s: State, n: NodeId): set<(ProcId, NodeId)> {
    set k | k in s.handles && k.1 == n && HoldsStrong(s, k)
  }

  /** Each internal strong count is the number of holders with a strong count; that of `at` may be `off` more. */
  ghost predicate CountsBut(s: State, at: NodeId, off: int) {
    forall n {:trigger n in s.nodes} :: n in s.nodes ==>
      s.nodes[n].internalStrong == |Holders(s, n)| + (if n == at then off else 0)
  }

  ghost predicate Counts(s: State) {
    forall n {:trigger n in s.nodes} :: n in s.nodes ==> s.nodes[n].internalStrong == |Holders(s, n)|
  }

  /** No handle is kept without a count. */
  ghost predicate Counted(s: State) {
    forall k {:trigger k in s.refs} :: k in s.refs ==> s.refs[k].strong + s.refs[k].weak > 0
  }

  /** A process's node table names exactly the nodes it owns, by their pointers. */
  ghost predicate Owners(s: State) {
    && (forall k {:trigger k in s.owned} :: k in s.owned ==>
          s.owned[k] in s.nodes && s.nodes[s.owned[k]].proc == Some(k.0) && s.nodes[s.owned[k]].ptr == k.1)
    && (forall n {:trigger n in s.nodes} :: n in s.nodes && s.nodes[n].proc.Some? ==>
          s.nodes[n].proc.value in s.procs && (s.nodes[n].proc.value, s.nodes[n].ptr) in s.owned
          && s.owned[(s.nodes[n].proc.value, s.nodes[n].ptr)] == n)
  }

  /** A process queue for every process and thread queues only of processes that exist. */
  ghost predicate Lists(s: State) {
    && (forall p {:trigger p in s.procs} :: p in s.procs ==> ProcList(p) in s.queues)
    && (forall l {:trigger l in s.queues} :: l in s.queues ==> l.proc in s.procs)
  }

  ghost function Times(q: seq<Work>, n: NodeId): nat {
    multiset(q)[NodeWork(n)]
  }

  /** Node work stands once in the list its node names, in no other, and only with its owner. */
  ghost predicate QueuedAt(s: State, n: NodeId)
    requires n in s.nodes
  {
    var at := s.nodes[n].workQueued;
    && (at.Some? ==> at.value in s.queues && s.nodes[n].proc == Some(at.value.proc))
    && (forall l {:trigger Times(s.queues[l], n)} ::
         l in s.queues ==> Times(s.queues[l], n) == if at == Some(l) then 1 else 0)
  }

  ghost predicate Queued(s: State) {
    && (forall n {:trigger n in s.nodes} :: n in s.nodes ==> QueuedAt(s, n))
    && (forall l, n {:trigger Times(s.queues[l], n)} :: l in s.queues && Times(s.queues[l], n) > 0 ==> n in s.nodes)
  }

  /** The owner never believes a node strongly held without believing it held. */
  ghost predicate Views(s: State) {
    forall n {:trigger n in s.nodes} :: n in s.nodes && s.nodes[n].hasStrong ==> s.nodes[n].hasWeak
  }

  /** Ids are given out in increasing order. */
  ghost predicate Fresh(s: State) {
    && (forall n {:trigger n in s.nodes} :: n in s.nodes ==> n <= s.nextId)
    && (forall p {:trigger p in s.procs} :: p in s.procs ==> p <= s.nextId)
  }

  ghost predicate Inv(s: State) {
    && Tables(s) && BackRefs(s) && Counts(s) && Counted(s)
    && Owners(s) && Lists(s) && Queued(s) && Views(s) && Fresh(s)
  }

  // ---- counting node work ----

  lemma TimesAppended(q: seq<Work>, w: Work, n: NodeId)
    ensures Times(q + [w], n) == Times(q, n) + (if w == NodeWork(n) then 1 else 0)
  {
  }

  lemma {:induction false} TimesRemoved(q: seq<Work>, w: Work, n: NodeId)
    ensures Times(RemoveFirst(q, w), n) ==
            if w == NodeWork(n) && Times(q, n) > 0 then Times(q, n) - 1 else Times(q, n)
  {
    if q != [] {
      assert q == [q[0]] + q[1..];
      if q[0] != w {
        TimesRemoved(q[1..], w, n);
      }
    }
  }

  lemma TimesRest(q: seq<Work>, n: NodeId)
    requires q != []
    ensures Times(q[1..], n) == Times(q, n) - (if q[0] == NodeWork(n) then 1 else 0)
  {
    assert q == [q[0]] + q[1..];
  }

  lemma InQueue(q: seq<Work>, n: NodeId)
    ensures NodeWork(n) in q <==> Times(q, n) > 0
  {
  }

  // ---- what the node operations touch ----

  /** Equal but for where node work is queued. */
  ghost predicate SameCounts(a: Node, b: Node) {
    a.(workQueued := None) == b.(workQueued := None)
  }

  /** `t` differs from `s` at most in node `id`, the queues and the owner's table. */
  ghost predicate TouchesOnly(s: State, t: State, id: NodeId) {
    && t.contexts == s.contexts && t.procs == s.procs && t.refs == s.refs && t.handles == s.handles
         && t.nextId == s.nextId
    && t.queues.Keys == s.queues.Keys
    && (forall n {:trigger n in t.nodes} {:trigger n in s.nodes} :: n != id ==> (n in t.nodes <==> n in s.nodes))
    && (forall n {:trigger t.nodes[n]} :: n in t.nodes && n != id ==> t.nodes[n] == s.nodes[n])
  }

  lemma DequeueShape(s: State, id: NodeId)
    requires id in s.nodes
    ensures var t := DequeueNodeWork(s, id);
            && TouchesOnly(s, t, id) && id in t.nodes && t.owned == s.owned
            && SameCounts(t.nodes[id], s.nodes[id]) && t.nodes[id].workQueued.None?
  {
    hide RemoveFirst;
    var n := s.nodes[id];
    if n.workQueued.Some? {
      assert DequeueNodeWork(s, id).nodes == s.nodes[id := n.(workQueued := None)];
    }
  }

  lemma QueueShape(s: State, id: NodeId, l: WorkList)
    requires id in s.nodes
    ensures var t := QueueNodeWork(s, id, l);
            && TouchesOnly(s, t, id) && id in t.nodes && t.owned == s.owned
            && SameCounts(t.nodes[id], s.nodes[id]) && t.nodes[id].workQueued == Some(l)
  {
  }

  /** What is left of a node after `inc_node`. */
  ghost function Raised(n: Node, strong: bool, internal: bool): Node {
    if strong && internal then n.(internalStrong := n.internalStrong + 1)
    else if strong then n.(localStrong := n.localStrong + 1)
    else if internal then n
    else n.(localWeak := n.localWeak + 1)
  }

  lemma IncNodeShape(s: State, id: NodeId, strong: bool, internal: bool, target: Option<(ProcId, Tid)>)
    requires id in s.nodes && IncNode(s, id, strong, internal, target).Ok?
    ensures var t := IncNode(s, id, strong, internal, target).value;
            && TouchesOnly(s, t, id) && id in t.nodes && t.owned == s.owned
            && SameCounts(t.nodes[id], Raised(s.nodes[id], strong, internal))
  {
    hide DequeueNodeWork, QueueNodeWork;
    var n := s.nodes[id];
    var t := SetNode(s, id, Raised(n, strong, internal));
    assert !strong && internal ==> t.nodes == s.nodes;
    if target.Some? {
      var l := ThreadList(target.value.0, target.value.1);
      if strong {
        DequeueShape(t, id);
        QueueShape(DequeueNodeWork(t, id), id, l);
      } else {
        QueueShape(t, id, l);
      }
    }
  }

  lemma DropShape(s: State, id: NodeId)
    requires id in s.nodes
    ensures var t := DropNode(s, id);
            TouchesOnly(s, t, id) && id !in t.nodes
  {
    hide DequeueNodeWork;
    DequeueShape(s, id);
  }

  lemma LastShape(s: State, id: NodeId)
    requires id in s.nodes
    ensures var t := LastReferenceGone(s, id);
            && TouchesOnly(s, t, id)
            && (id in t.nodes ==> t.owned == s.owned && SameCounts(t.nodes[id], s.nodes[id]))
            && (id !in t.nodes ==>
                 t == DropNode(s, id) && s.nodes[id].refs == {} && s.nodes[id].localStrong == 0
                     && s.nodes[id].localWeak == 0)
  {
    hide DequeueNodeWork, QueueNodeWork;
    var n := s.nodes[id];
    if n.proc.Some? && (n.hasStrong || n.hasWeak) {
      if n.workQueued.None? {
        QueueShape(s, id, ProcList(n.proc.value));
      }
    } else if n.refs == {} && n.localStrong == 0 && n.localWeak == 0 {
      DropShape(s, id);
    }
  }

  lemma DecNodeShape(s: State, id: NodeId, strong: bool, internal: bool)
    requires id in s.nodes
    ensures var t, n := DecNode(s, id, strong, internal), Lowered(s.nodes[id], strong, internal);
            && TouchesOnly(s, t, id)
            && (id in t.nodes ==> t.owned == s.owned && SameCounts(t.nodes[id], n))
            && (id !in t.nodes ==>
                 t == DropNode(SetNode(s, id, n), id) && n.refs == {} && n.localStrong == 0 && n.localWeak == 0)
  {
    hide LastReferenceGone, DropNode;
    LastShape(SetNode(s, id, Lowered(s.nodes[id], strong, internal)), id);
  }

  // ---- node work stays where its node says ----

  lemma SetNodeQueued(s: State, id: NodeId, n: Node)
    requires Queued(s) && id in s.nodes && n.workQueued == s.nodes[id].workQueued && n.proc == s.nodes[id].proc
    ensures Queued(SetNode(s, id, n))
  {
    var t := SetNode(s, id, n);
    forall m | m in t.nodes ensures QueuedAt(t, m) {
      assert QueuedAt(s, m);
    }
  }

  lemma DequeueQueued(s: State, id: NodeId)
    requires Queued(s) && id in s.nodes
    ensures Queued(DequeueNodeWork(s, id))
    ensures forall l :: l in s.queues ==> Times(DequeueNodeWork(s, id).queues[l], id) == 0
  {
    hide RemoveFirst, Times;
    assert QueuedAt(s, id);
    if s.nodes[id].workQueued.Some? {
      var l := s.nodes[id].workQueued.value;
      var t := DequeueNodeWork(s, id);
      forall m ensures Times(t.queues[l], m) == if m == id then 0 else Times(s.queues[l], m) {
        TimesRemoved(s.queues[l], NodeWork(id), m);
      }
      forall m | m in t.nodes ensures QueuedAt(t, m) {
        assert QueuedAt(s, m);
      }
    }
  }

  lemma QueueQueued(s: State, id: NodeId, l: WorkList)
    requires Queued(s) && id in s.nodes && s.nodes[id].workQueued.None?
    requires l in s.queues && s.nodes[id].proc == Some(l.proc)
    ensures Queued(QueueNodeWork(s, id, l))
  {
    hide Times;
    assert QueuedAt(s, id);
    var t := QueueNodeWork(s, id, l);
    forall m ensures Times(t.queues[l], m) == Times(s.queues[l], m) + (if m == id then 1 else 0) {
      TimesAppended(s.queues[l], NodeWork(id), m);
    }
    forall m | m in t.nodes ensures QueuedAt(t, m) {
      assert QueuedAt(s, m);
    }
  }

  lemma DropQueued(s: State, id: NodeId)
    requires Queued(s) && id in s.nodes
    ensures Queued(DropNode(s, id))
  {
    hide Times, DequeueNodeWork;
    assert QueuedAt(s, id);
    DequeueQueued(s, id);
    DequeueShape(s, id);
    var u := DequeueNodeWork(s, id);
    var t := DropNode(s, id);
    if s.nodes[id].proc.Some? {
      forall m | m in t.nodes ensures QueuedAt(t, m) {
        assert QueuedAt(u, m);
      }
    } else {
      forall m | m in t.nodes ensures QueuedAt(t, m) {
        assert QueuedAt(s, m);
      }
    }
  }

  lemma LastQueued(s: State, id: NodeId)
    requires Queued(s) && Owners(s) && Lists(s) && id in s.nodes
    ensures Queued(LastReferenceGone(s, id))
  {
    hide Queued, QueueNodeWork, DropNode;
    var n := s.nodes[id];
    if n.proc.Some? && (n.hasStrong || n.hasWeak) {
      if n.workQueued.None? {
        QueueQueued(s, id, ProcList(n.proc.value));
      }
    } else if n.refs == {} && n.localStrong == 0 && n.localWeak == 0 {
      DropQueued(s, id);
    }
  }

  lemma SetNodeOwners(s: State, id: NodeId, n: Node)
    requires Owners(s) && id in s.nodes && n.proc == s.nodes[id].proc && n.ptr == s.nodes[id].ptr
    ensures Owners(SetNode(s, id, n))
  {
  }

  /** The thread node work goes to exists and belongs to the node's owner. */
  ghost predicate TargetOk(s: State, id: NodeId, target: Option<(ProcId, Tid)>) {
    target.Some? && id in s.nodes ==>
      ThreadList(target.value.0, target.value.1) in s.queues && s.nodes[id].proc == Some(target.value.0)
  }

  lemma DecNodeQueued(s: State, id: NodeId, strong: bool, internal: bool)
    requires Queued(s) && Owners(s) && Lists(s)
    ensures Queued(DecNode(s, id, strong, internal))
  {
    hide Queued, Owners, LastReferenceGone;
    if id in s.nodes {
      var n := Lowered(s.nodes[id], strong, internal);
      SetNodeQueued(s, id, n);
      SetNodeOwners(s, id, n);
      LastQueued(SetNode(s, id, n), id);
    }
  }

  lemma IncNodeQueued(s: State, id: NodeId, strong: bool, internal: bool, target: Option<(ProcId, Tid)>)
    requires Queued(s) && TargetOk(s, id, target) && IncNode(s, id, strong, internal, target).Ok?
    ensures Queued(IncNode(s, id, strong, internal, target).value)
  {
    hide Queued, QueueNodeWork, DequeueNodeWork;
    var n := s.nodes[id];
    var m := Raised(n, strong, internal);
    var t := SetNode(s, id, m);
    assert !strong && internal ==> t.nodes == s.nodes;
    SetNodeQueued(s, id, m);
    if target.Some? {
      var l := ThreadList(target.value.0, target.value.1);
      if strong && !n.hasStrong {
        DequeueQueued(t, id);
        DequeueShape(t, id);
        QueueQueued(DequeueNodeWork(t, id), id, l);
      } else if !strong && !n.hasWeak && n.workQueued.None? {
        QueueQueued(t, id, l);
      }
    }
  }

  // ---- the node side of the invariant ----

  ghost predicate NodeSide(s: State) {
    Owners(s) && Lists(s) && Queued(s) && Views(s) && Fresh(s)
  }

  ghost predicate SameIdentity(a: Node, b: Node) {
    a.proc == b.proc && a.ptr == b.ptr && a.workQueued == b.workQueued
  }

  lemma NodeSideSetNode(s: State, id: NodeId, n: Node)
    requires NodeSide(s) && id in s.nodes && SameIdentity(n, s.nodes[id]) && (n.hasStrong ==> n.hasWeak)
    ensures NodeSide(SetNode(s, id, n))
  {
    hide Queued, Owners;
    SetNodeQueued(s, id, n);
    SetNodeOwners(s, id, n);
  }

  lemma NodeSideTables(s: State, refs: map<(ProcId, nat), Ref>, handles: map<(ProcId, NodeId), nat>)
    requires NodeSide(s)
    ensures NodeSide(s.(refs := refs, handles := handles))
  {
    hide Times;
    var t := s.(refs := refs, handles := handles);
    forall n | n in t.nodes ensures QueuedAt(t, n) {
      assert QueuedAt(s, n);
    }
  }

  lemma DropOwners(s: State, id: NodeId)
    requires Owners(s) && id in s.nodes
    ensures Owners(DropNode(s, id))
  {
    hide DequeueNodeWork;
    DequeueShape(s, id);
    DroppedOwners(s, DropNode(s, id), id);
  }

  lemma DroppedOwners(s: State, t: State, id: NodeId)
    requires Owners(s) && id in s.nodes && id !in t.nodes && TouchesOnly(s, t, id)
    requires t.owned == if s.nodes[id].proc.Some? then s.owned - {(s.nodes[id].proc.value, s.nodes[id].ptr)}
             else s.owned
    ensures Owners(t)
  {
    forall k | k in t.owned ensures t.owned[k] in t.nodes {
      assert k in s.owned;
    }
  }

  lemma DecNodeSide(s: State, id: NodeId, strong: bool, internal: bool)
    requires NodeSide(s)
    ensures NodeSide(DecNode(s, id, strong, internal))
  {
    hide Queued, Owners, DecNode, DropNode;
    DecNodeQueued(s, id, strong, internal);
    if id in s.nodes {
      DecNodeShape(s, id, strong, internal);
      var n, t := Lowered(s.nodes[id], strong, internal), DecNode(s, id, strong, internal);
      SetNodeOwners(s, id, n);
      if id in t.nodes {
        SameOwners(s, t, id);
      } else {
        DropOwners(SetNode(s, id, n), id);
      }
    } else {
      assert DecNode(s, id, strong, internal) == s by { DecNodeMissing(s, id, strong, internal); }
    }
  }

  lemma DecNodeMissing(s: State, id: NodeId, strong: bool, internal: bool)
    requires id !in s.nodes
    ensures DecNode(s, id, strong, internal) == s
  {
  }

  lemma SameOwners(s: State, t: State, id: NodeId)
    requires Owners(s) && TouchesOnly(s, t, id) && t.owned == s.owned && id in s.nodes && id in t.nodes
    requires t.nodes[id].proc == s.nodes[id].proc && t.nodes[id].ptr == s.nodes[id].ptr
    ensures Owners(t)
  {
  }

  lemma IncNodeSide(s: State, id: NodeId, strong: bool, internal: bool, target: Option<(ProcId, Tid)>)
    requires NodeSide(s) && TargetOk(s, id, target) && IncNode(s, id, strong, internal, target).Ok?
    ensures NodeSide(IncNode(s, id, strong, internal, target).value)
  {
    assert id in s.nodes;
    hide Queued, Owners, IncNode, TouchesOnly, Lists, Views, Fresh;
    var t := IncNode(s, id, strong, internal, target).value;
    IncNodeQueued(s, id, strong, internal, target);
    IncNodeShape(s, id, strong, internal, target);
    SameOwners(s, t, id);
    ViewsOf(s, id);
    TouchedKeeps(s, t, id);
  }

  lemma ViewsOf(s: State, id: NodeId)
    requires Views(s) && id in s.nodes
    ensures s.nodes[id].hasStrong ==> s.nodes[id].hasWeak
  {
  }

  lemma TouchedKeeps(s: State, t: State, id: NodeId)
    requires Lists(s) && Views(s) && Fresh(s) && TouchesOnly(s, t, id) && id in s.nodes
    requires id in t.nodes && t.nodes[id].hasStrong ==> t.nodes[id].hasWeak
    ensures Lists(t) && Views(t) && Fresh(t)
  {
  }

  // ---- the handle side of the invariant ----

  lemma SameHolders(s: State, t: State, n: NodeId)
    requires t.refs == s.refs && t.handles == s.handles
    ensures Holders(t, n) == Holders(s, n)
  {
    assert forall k :: HoldsStrong(t, k) == HoldsStrong(s, k);
  }

  lemma NoHoldersWithoutHandles(s: State, n: NodeId)
    requires forall k :: k in s.handles ==> k.1 != n
    ensures Holders(s, n) == {}
  {
  }

  /** Lowering a count the holders no longer justify brings the two into step; nothing else moves. */
  lemma DecNodeRefs(s: State, id: NodeId, strong: bool, internal: bool)
    requires Tables(s) && BackRefs(s) && CountsBut(s, id, if strong && internal then 1 else 0)
    ensures var t := DecNode(s, id, strong, internal);
            Tables(t) && BackRefs(t) && Counts(t) && t.refs == s.refs && t.handles == s.handles && t.procs == s.procs
  {
    hide DecNode, DropNode, Holders, Tables, BackRefs;
    var t := DecNode(s, id, strong, internal);
    if id in s.nodes {
      DecNodeShape(s, id, strong, internal);
      SameTables(s, t);
      if id in t.nodes {
        SameBackRefs(s, t, id);
      } else {
        FewerBackRefs(s, t, id);
      }
      forall n | n in t.nodes ensures t.nodes[n].internalStrong == |Holders(t, n)| {
        SameHolders(s, t, n);
      }
    } else {
      DecNodeMissing(s, id, strong, internal);
    }
  }

  lemma SameTables(s: State, t: State)
    requires Tables(s) && t.refs == s.refs && t.handles == s.handles && t.procs == s.procs
    ensures Tables(t)
  {
  }

  lemma SameBackRefs(s: State, t: State, id: NodeId)
    requires BackRefs(s) && TouchesOnly(s, t, id) && id in s.nodes && id in t.nodes
             && t.nodes[id].refs == s.nodes[id].refs
    ensures BackRefs(t)
  {
    forall n, p | n in t.nodes ensures p in t.nodes[n].refs <==> (p, n) in t.handles {
      assert p in t.nodes[n].refs <==> p in s.nodes[n].refs;
    }
  }

  lemma FewerBackRefs(s: State, t: State, id: NodeId)
    requires BackRefs(s) && TouchesOnly(s, t, id) && id in s.nodes && id !in t.nodes && s.nodes[id].refs == {}
    ensures BackRefs(t)
  {
    forall k | k in s.handles ensures k.1 != id {
      assert k.0 in s.nodes[k.1].refs;
    }
    forall n, p | n in t.nodes ensures p in t.nodes[n].refs <==> (p, n) in t.handles {
      assert p in t.nodes[n].refs <==> p in s.nodes[n].refs;
    }
  }

  lemma IncNodeRefs(s: State, id: NodeId, strong: bool, internal: bool, target: Option<(ProcId, Tid)>)
    requires Tables(s) && BackRefs(s) && Counts(s) && id in s.nodes && IncNode(s, id, strong, internal, target).Ok?
    ensures var t := IncNode(s, id, strong, internal, target).value;
            && Tables(t) && BackRefs(t) && CountsBut(t, id, if strong && internal then 1 else 0)
            && t.refs == s.refs && t.handles == s.handles && t.procs == s.procs
  {
    hide IncNode, Holders, Tables, BackRefs;
    var t := IncNode(s, id, strong, internal, target).value;
    IncNodeShape(s, id, strong, internal, target);
    SameTables(s, t);
    SameBackRefs(s, t, id);
    forall n | n in t.nodes
      ensures t.nodes[n].internalStrong == |Holders(t, n)| + (if n == id && strong && internal then 1 else 0)
    {
      SameHolders(s, t, n);
    }
  }

  lemma HolderOrNot(s: State, p: ProcId, desc: nat)
    requires Tables(s) && (p, desc) in s.refs
    ensures (p, s.refs[(p, desc)].node) in Holders(s, s.refs[(p, desc)].node) <==> s.refs[(p, desc)].strong > 0
  {
  }

  ghost function One(b: bool): nat {
    if b then 1 else 0
  }

  lemma RefSetTables(s: State, p: ProcId, desc: nat, r: Ref)
    requires Tables(s) && BackRefs(s) && (p, desc) in s.refs && r.node == s.refs[(p, desc)].node
    ensures Tables(s.(refs := s.refs[(p, desc) := r])) && BackRefs(s.(refs := s.refs[(p, desc) := r]))
  {
  }

  lemma SetThenDropped<K, V>(m: map<K, V>, k: K, v: V)
    ensures m[k := v] - {k} == m - {k}
  {
  }

  /** Changing the counts of one handle changes the holders of its node by that one, and no others. */
  lemma RefSet(s: State, p: ProcId, desc: nat, r: Ref)
    requires Tables(s) && BackRefs(s) && (p, desc) in s.refs && r.node == s.refs[(p, desc)].node
    ensures var t := s.(refs := s.refs[(p, desc) := r]);
            && Tables(t) && BackRefs(t)
            && (forall n {:trigger Holders(t, n)} :: n != r.node ==> Holders(t, n) == Holders(s, n))
            && |Holders(t, r.node)| == |Holders(s, r.node)| + One(r.strong > 0) - One(s.refs[(p, desc)].strong > 0)
  {
    hide Holders, Tables, BackRefs;
    var t := s.(refs := s.refs[(p, desc) := r]);
    RefSetTables(s, p, desc, r);
    HolderOrNot(s, p, desc);
    HolderOrNot(t, p, desc);
    SetThenDropped(s.refs, (p, desc), r);
    OtherHoldersKept(s, t, p, desc, r.node);
    OneLess(Holders(t, r.node), (p, r.node));
    OneLess(Holders(s, r.node), (p, r.node));
  }

  lemma OtherHoldersKept(s: State, t: State, p: ProcId, desc: nat, n: NodeId)
    requires Tables(s) && Tables(t)
    requires t.handles - {(p, n)} == s.handles - {(p, n)} && t.refs - {(p, desc)} == s.refs - {(p, desc)}
    requires (p, desc) in s.refs ==> s.refs[(p, desc)].node == n
    requires (p, desc) in t.refs ==> t.refs[(p, desc)].node == n
    ensures forall m {:trigger Holders(t, m)} :: m != n ==> Holders(t, m) == Holders(s, m)
    ensures Holders(t, n) - {(p, n)} == Holders(s, n) - {(p, n)}
  {
    forall k | k != (p, n) ensures HoldsStrong(t, k) == HoldsStrong(s, k) {
      assert k in t.handles <==> k in t.handles - {(p, n)};
      assert k in s.handles <==> k in s.handles - {(p, n)};
      if k in s.handles {
        var e := (k.0, s.handles[k]);
        assert e in t.refs <==> e in t.refs - {(p, desc)};
        assert e in s.refs <==> e in s.refs - {(p, desc)};
      }
    }
    forall m | m != n ensures Holders(t, m) == Holders(s, m) {
      assert forall k :: k in Holders(t, m) <==> k in Holders(s, m);
    }
  }

  lemma OneLess<T>(a: set<T>, x: T)
    ensures |a - {x}| == |a| - One(x in a)
  {
    if x !in a {
      assert a - {x} == a;
    }
  }

  ghost predicate HandleSide(s: State) {
    Tables(s) && BackRefs(s) && Counts(s)
  }

  /** Changing a handle's counts puts its node's count in step when it was off by just that. */
  lemma RefSetCounts(s: State, p: ProcId, desc: nat, r: Ref)
    requires Tables(s) && BackRefs(s) && (p, desc) in s.refs && r.node == s.refs[(p, desc)].node
    requires CountsBut(s, r.node, One(r.strong > 0) - One(s.refs[(p, desc)].strong > 0))
    ensures HandleSide(s.(refs := s.refs[(p, desc) := r]))
  {
    hide Tables, BackRefs, Holders;
    RefSet(s, p, desc, r);
  }

  lemma RefIsLive(s: State, p: ProcId, desc: nat)
    requires Tables(s) && BackRefs(s) && (p, desc) in s.refs
    ensures (p, s.refs[(p, desc)].node) in s.handles && s.refs[(p, desc)].node in s.nodes
    ensures s.handles[(p, s.refs[(p, desc)].node)] == desc && p in s.procs
    ensures p in s.nodes[s.refs[(p, desc)].node].refs
  {
  }

  function Recounted(r: Ref, strong: bool): Ref {
    if strong then r.(strong := r.strong + 1) else r.(weak := r.weak + 1)
  }

  /** `inc_ref` counts the node exactly when the handle's first count of that kind is made. */
  lemma IncRefHandles(s: State, p: ProcId, desc: nat, strong: bool, target: Option<(ProcId, Tid)>)
    requires HandleSide(s) && (p, desc) in s.refs && IncRef(s, p, desc, strong, target).Ok?
    ensures var t := IncRef(s, p, desc, strong, target).value;
            && HandleSide(t) && t.handles == s.handles && t.procs == s.procs
            && t.refs == s.refs[(p, desc) := Recounted(s.refs[(p, desc)], strong)]
  {
    hide IncNode, Holders, Tables, BackRefs;
    var r := s.refs[(p, desc)];
    RefIsLive(s, p, desc);
    if (if strong then r.strong else r.weak) == 0 {
      IncNodeRefs(s, r.node, strong, true, target);
      RefSetCounts(IncNode(s, r.node, strong, true, target).value, p, desc, Recounted(r, strong));
    } else {
      RefSetCounts(s, p, desc, Recounted(r, strong));
    }
  }

  /** Taking one handle out of both tables. */
  lemma EntryRemoved(s: State, p: ProcId, desc: nat)
    requires Tables(s) && (p, desc) in s.refs
    ensures var n := s.refs[(p, desc)].node;
            var t := s.(refs := s.refs - {(p, desc)}, handles := s.handles - {(p, n)});
            && Tables(t)
            && (forall m {:trigger Holders(t, m)} :: m != n ==> Holders(t, m) == Holders(s, m))
            && |Holders(t, n)| == |Holders(s, n)| - One(s.refs[(p, desc)].strong > 0)
  {
    var n := s.refs[(p, desc)].node;
    var t := s.(refs := s.refs - {(p, desc)}, handles := s.handles - {(p, n)});
    hide Holders, Tables;
    EntryRemovedTables(s, p, desc);
    HolderOrNot(s, p, desc);
    NoHolder(t, (p, n));
    assert t.refs - {(p, desc)} == t.refs && t.handles - {(p, n)} == t.handles;
    OtherHoldersKept(s, t, p, desc, n);
    OneLess(Holders(t, n), (p, n));
    OneLess(Holders(s, n), (p, n));
  }

  lemma EntryRemovedTables(s: State, p: ProcId, desc: nat)
    requires Tables(s) && (p, desc) in s.refs
    ensures Tables(s.(refs := s.refs - {(p, desc)}, handles := s.handles - {(p, s.refs[(p, desc)].node)}))
  {
    var t := s.(refs := s.refs - {(p, desc)}, handles := s.handles - {(p, s.refs[(p, desc)].node)});
    forall k | k in t.handles ensures (k.0, t.handles[k]) in t.refs {
      assert s.refs[(k.0, s.handles[k])].node == k.1;
    }
  }

  lemma NoHolder(s: State, k: (ProcId, NodeId))
    requires k !in s.handles
    ensures k !in Holders(s, k.1)
  {
  }

  /** Taking the process out of the node's back-references completes it. */
  lemma DetachedHandles(s: State, p: ProcId, desc: nat)
    requires HandleSide(s) && (p, desc) in s.refs
    ensures var t, n := Detached(s, p, desc), s.refs[(p, desc)].node;
            && HandleSide(t) && n in t.nodes && t.procs == s.procs && t.queues.Keys == s.queues.Keys
            && t.refs == s.refs - {(p, desc)} && t.handles == s.handles - {(p, n)}
  {
    hide DecNode, Holders, Tables, BackRefs;
    var r := s.refs[(p, desc)];
    var n := r.node;
    RefIsLive(s, p, desc);
    EntryRemoved(s, p, desc);
    var s1 := s.(refs := s.refs - {(p, desc)}, handles := s.handles - {(p, n)});
    var s2 := if r.strong != 0 then DecNode(s1, n, true, true) else s1;
    if r.strong != 0 {
      DecNodeShape(s1, n, true, true);
    }
    assert TouchesOnly(s1, s2, n) && n in s2.nodes && s2.nodes[n].refs == s.nodes[n].refs;
    var t := Detached(s, p, desc);
    SameTables(s1, t);
    BackRefRemoved(s, t, p, n);
    forall m | m in t.nodes ensures t.nodes[m].internalStrong == |Holders(t, m)| {
      SameHolders(s1, t, m);
    }
  }

  lemma BackRefRemoved(s: State, t: State, p: ProcId, n: NodeId)
    requires BackRefs(s) && n in s.nodes && n in t.nodes && (p, n) in s.handles
    requires t.handles == s.handles - {(p, n)}
    requires forall m {:trigger m in t.nodes} {:trigger m in s.nodes} :: m != n ==> (m in t.nodes <==> m in s.nodes)
    requires forall m {:trigger t.nodes[m]} :: m in t.nodes && m != n ==> t.nodes[m] == s.nodes[m]
    requires t.nodes[n].refs == s.nodes[n].refs - {p}
    ensures BackRefs(t)
  {
    forall m, q | m in t.nodes ensures q in t.nodes[m].refs <==> (q, m) in t.handles {
      assert q in s.nodes[m].refs <==> (q, m) in s.handles;
    }
  }

  lemma CleanupHandles(s: State, p: ProcId, desc: nat)
    requires HandleSide(s) && (p, desc) in s.refs
    ensures var t, n := CleanupRef(s, p, desc), s.refs[(p, desc)].node;
            && HandleSide(t) && t.procs == s.procs
            && t.refs == s.refs - {(p, desc)} && t.handles == s.handles - {(p, n)}
  {
    hide DecNode, Detached, Holders, Tables, BackRefs;
    DetachedHandles(s, p, desc);
    DecNodeRefs(Detached(s, p, desc), s.refs[(p, desc)].node, false, true);
  }

  lemma CleanupSide(s: State, p: ProcId, desc: nat)
    requires NodeSide(s)
    ensures NodeSide(CleanupRef(s, p, desc))
  {
    hide DecNode, NodeSide;
    if (p, desc) in s.refs {
      var r := s.refs[(p, desc)];
      var s1 := s.(refs := s.refs - {(p, desc)}, handles := s.handles - {(p, r.node)});
      NodeSideTables(s, s1.refs, s1.handles);
      DecNodeSide(s1, r.node, true, true);
      var s2 := if r.strong != 0 then DecNode(s1, r.node, true, true) else s1;
      if r.node in s2.nodes {
        RefsEdited(s2, r.node, s2.nodes[r.node].refs - {p});
      }
      DecNodeSide(Detached(s, p, desc), r.node, false, true);
    }
  }

  lemma RefsEdited(s: State, id: NodeId, refs: set<ProcId>)
    requires NodeSide(s) && id in s.nodes
    ensures NodeSide(SetNode(s, id, s.nodes[id].(refs := refs)))
  {
    NodeSideSetNode(s, id, s.nodes[id].(refs := refs));
  }
}
