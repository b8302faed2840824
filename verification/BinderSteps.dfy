/** Each operation of the binder driver keeps the invariant. */
module BinderSteps {
  import opened Common
  import opened BinderState
  import opened BinderInvariant

  lemma InvSides(s: State)
    ensures Inv(s) <==> HandleSide(s) && Counted(s) && NodeSide(s)
  {
  }

  // ---- handles ----

  lemma IncRefInv(s: State, p: ProcId, desc: nat, strong: bool, target: Option<(ProcId, Tid)>)
    requires HandleSide(s) && NodeSide(s) && (p, desc) in s.refs && TargetOk(s, s.refs[(p, desc)].node, target)
    requires forall k :: k in s.refs && k != (p, desc) ==> s.refs[k].strong + s.refs[k].weak > 0
    requires IncRef(s, p, desc, strong, target).Ok?
    ensures Inv(IncRef(s, p, desc, strong, target).value)
  {
    hide IncNode, HandleSide, NodeSide, TargetOk;
    var r := s.refs[(p, desc)];
    var t := IncRef(s, p, desc, strong, target).value;
    IncRefHandles(s, p, desc, strong, target);
    if (if strong then r.strong else r.weak) == 0 {
      IncNodeSide(s, r.node, strong, true, target);
      var u := IncNode(s, r.node, strong, true, target).value;
      NodeSideTables(u, t.refs, u.handles);
    } else {
      NodeSideTables(s, t.refs, s.handles);
    }
    InvSides(t);
  }

  lemma DecRefInv(s: State, p: ProcId, desc: nat, strong: bool)
    requires Inv(s) && DecRef(s, p, desc, strong).Ok?
    ensures Inv(DecRef(s, p, desc, strong).value)
  {
    hide DecNode, CleanupRef, HandleSide, NodeSide, Inv, Tables, BackRefs, Holders;
    InvSides(s);
    var r := s.refs[(p, desc)];
    if (if strong then r.strong else r.weak) != 0 {
      var r' := if strong then r.(strong := r.strong - 1) else r.(weak := r.weak - 1);
      var t := s.(refs := s.refs[(p, desc) := r']);
      Lowering(s, p, desc, r');
      NodeSideTables(s, t.refs, t.handles);
      var u := t;
      if strong && r'.strong == 0 {
        DecNodeRefs(t, r.node, true, true);
        DecNodeSide(t, r.node, true, true);
        u := DecNode(t, r.node, true, true);
        HandleSideOf(u);
      }
      if r'.strong == 0 && r'.weak == 0 {
        CleanupHandles(u, p, desc);
        CleanupSide(u, p, desc);
      }
    }
    InvSides(DecRef(s, p, desc, strong).value);
  }

  lemma HandleSideOf(s: State)
    requires Tables(s) && BackRefs(s) && Counts(s)
    ensures HandleSide(s)
  {
  }

  /** One count of a handle lowered: its node's count is then one too high exactly if the handle just
      lost its last strong count. */
  lemma Lowering(s: State, p: ProcId, desc: nat, r: Ref)
    requires HandleSide(s) && (p, desc) in s.refs
    requires r.node == s.refs[(p, desc)].node && r.strong <= s.refs[(p, desc)].strong
    ensures var t := s.(refs := s.refs[(p, desc) := r]);
            var lost := r.strong == 0 < s.refs[(p, desc)].strong;
            && Tables(t) && BackRefs(t) && CountsBut(t, r.node, if lost then 1 else 0)
            && (!lost ==> HandleSide(t))
  {
    hide Tables, BackRefs, Holders;
    RefSet(s, p, desc, r);
  }

  lemma AddRefTables(s: State, p: ProcId, node: NodeId, desc: nat)
    requires Tables(s) && p in s.procs && (p, node) !in s.handles && (p, desc) !in s.refs
    ensures Tables(AddRef(s, p, node, desc))
  {
    forall k | k in s.refs ensures (k.0, s.refs[k].node) != (p, node) {
    }
  }

  lemma AddRefBackRefs(s: State, p: ProcId, node: NodeId, desc: nat)
    requires BackRefs(s) && node in s.nodes
    ensures BackRefs(AddRef(s, p, node, desc))
  {
    var t := AddRef(s, p, node, desc);
    forall m, q | m in t.nodes ensures q in t.nodes[m].refs <==> (q, m) in t.handles {
      assert q in s.nodes[m].refs <==> (q, m) in s.handles;
    }
  }

  lemma AddRefHandles(s: State, p: ProcId, node: NodeId, desc: nat)
    requires HandleSide(s) && p in s.procs && node in s.nodes && (p, node) !in s.handles && (p, desc) !in s.refs
    ensures HandleSide(AddRef(s, p, node, desc))
  {
    hide Holders, Tables, BackRefs, AddRef;
    var t := AddRef(s, p, node, desc);
    AddRefTables(s, p, node, desc);
    AddRefBackRefs(s, p, node, desc);
    AddRefShape(s, p, node, desc);
    HolderOrNot(t, p, desc);
    NoHolder(s, (p, node));
    SetThenDropped(s.refs, (p, desc), Ref(node, 0, 0));
    SetThenDropped(s.handles, (p, node), desc);
    OtherHoldersKept(s, t, p, desc, node);
    OneLess(Holders(t, node), (p, node));
    OneLess(Holders(s, node), (p, node));
  }

  lemma AddRefShape(s: State, p: ProcId, node: NodeId, desc: nat)
    requires node in s.nodes
    ensures var t := AddRef(s, p, node, desc);
            && t.refs == s.refs[(p, desc) := Ref(node, 0, 0)] && t.handles == s.handles[(p, node) := desc]
            && t.procs == s.procs && t.nodes.Keys == s.nodes.Keys && t.queues == s.queues
            && (forall n ::
                 n in s.nodes ==>
                     t.nodes[n].internalStrong == s.nodes[n].internalStrong && t.nodes[n].proc == s.nodes[n].proc)
  {
  }

  lemma AddRefSide(s: State, p: ProcId, node: NodeId, desc: nat)
    requires NodeSide(s) && node in s.nodes
    ensures NodeSide(AddRef(s, p, node, desc))
  {
    hide NodeSide;
    var t := s.(refs := s.refs[(p, desc) := Ref(node, 0, 0)], handles := s.handles[(p, node) := desc]);
    NodeSideTables(s, t.refs, t.handles);
    RefsEdited(t, node, t.nodes[node].refs + {p});
  }

  /** `inc_ref_for_node` keeps the invariant for every node that exists, whether or not it can count it. */
  lemma IncRefForNodeInv(s: State, p: ProcId, node: NodeId, strong: bool, target: Option<(ProcId, Tid)>, free: nat)
    requires Inv(s) && node in s.nodes && TargetOk(s, node, target) && (p, free) !in s.refs
    ensures Inv(IncRefForNode(s, p, node, strong, target, free).0)
  {
    hide IncRef, HandleSide, NodeSide, CleanupRef, AddRef, TargetOk, Inv;
    InvSides(s);
    HandleSideIsTables(s);
    if p !in s.procs {
    } else if (p, node) in s.handles {
      HandleNamesNode(s, p, node);
      var desc := s.handles[(p, node)];
      if IncRef(s, p, desc, strong, target).Ok? {
        IncRefInv(s, p, desc, strong, target);
      }
    } else {
      var t := AddRef(s, p, node, free);
      AddRefHandles(s, p, node, free);
      AddRefSide(s, p, node, free);
      AddRefShape(s, p, node, free);
      AddRefTarget(s, p, node, free, target);
      if IncRef(t, p, free, strong, target).Ok? {
        IncRefInv(t, p, free, strong, target);
      } else {
        CleanupHandles(t, p, free);
        CleanupSide(t, p, free);
        InvSides(CleanupRef(t, p, free));
      }
    }
  }

  lemma HandleSideIsTables(s: State)
    requires HandleSide(s)
    ensures forall k {:trigger k in s.handles} :: k in s.handles ==> (k.0, s.handles[k]) in s.refs
  {
  }

  lemma AddRefTarget(s: State, p: ProcId, node: NodeId, desc: nat, target: Option<(ProcId, Tid)>)
    requires TargetOk(s, node, target) && node in s.nodes
    ensures TargetOk(AddRef(s, p, node, desc), node, target)
  {
  }

  /** For a node that is gone it leaves a handle behind that names nothing, so the invariant is lost. */
  lemma IncRefForMissingNode(s: State, p: ProcId, node: NodeId, strong: bool, target: Option<(ProcId, Tid)>, free: nat)
    requires Inv(s) && p in s.procs && node !in s.nodes
    ensures IncRefForNode(s, p, node, strong, target, free).1 == Err(EINVAL)
    ensures !Inv(IncRefForNode(s, p, node, strong, target, free).0)
  {
    var t := IncRefForNode(s, p, node, strong, target, free).0;
    assert (p, node) !in s.handles;
    assert (p, node) in t.handles && node !in t.nodes;
    assert !BackRefs(t);
  }

  /** So exactly then. */
  lemma IncRefForNodeKeepsInv(s: State, p: ProcId, node: NodeId, strong: bool, target: Option<(ProcId, Tid)>, free: nat)
    requires Inv(s) && TargetOk(s, node, target) && (p, free) !in s.refs
    ensures Inv(IncRefForNode(s, p, node, strong, target, free).0) <==> node in s.nodes || p !in s.procs
  {
    hide Inv, TargetOk, IncRef, AddRef, CleanupRef;
    InvSides(s);
    HandleSideIsTables(s);
    if node in s.nodes {
      IncRefForNodeInv(s, p, node, strong, target, free);
    } else if p in s.procs {
      IncRefForMissingNode(s, p, node, strong, target, free);
    }
  }

  lemma NewRefCounted(s: State, p: ProcId, node: NodeId, strong: bool, target: Option<(ProcId, Tid)>, free: nat)
    requires HandleSide(s) && p in s.procs && node in s.nodes && (p, node) !in s.handles && (p, free) !in s.refs
    requires (p, free) in AddRef(s, p, node, free).refs && IncRef(AddRef(s, p, node, free), p, free, strong, target).Ok?
    ensures var t := IncRef(AddRef(s, p, node, free), p, free, strong, target).value;
            && t.handles == s.handles[(p, node) := free]
            && t.refs == s.refs[(p, free) := Recounted(Ref(node, 0, 0), strong)]
  {
    hide IncRef, HandleSide, AddRef;
    AddRefHandles(s, p, node, free);
    AddRefShape(s, p, node, free);
    IncRefHandles(AddRef(s, p, node, free), p, free, strong, target);
    SetTwice(s.refs, (p, free), Ref(node, 0, 0), Recounted(Ref(node, 0, 0), strong));
  }

  /** What a successful `inc_ref_for_node` returns: a handle of the process on that node, counted once
      more, with every other handle as it was. */
  lemma IncRefForNodeResult(s: State, p: ProcId, node: NodeId, strong: bool, target: Option<(ProcId, Tid)>, free: nat)
    requires Inv(s) && node in s.nodes && (p, free) !in s.refs && IncRefForNode(s, p, node, strong, target, free).1.Ok?
    ensures var t, desc := IncRefForNode(s, p, node, strong, target, free).0,
            IncRefForNode(s, p, node, strong, target, free).1.value;
            var was := if (p, desc) in s.refs then s.refs[(p, desc)] else Ref(node, 0, 0);
            && t.handles == s.handles[(p, node) := desc] && was.node == node
            && t.refs == s.refs[(p, desc) := Recounted(was, strong)]
            && ((p, node) !in s.handles ==> desc == free)
  {
    hide IncRef, HandleSide, NodeSide, AddRef, Inv;
    InvSides(s);
    HandleSideIsTables(s);
    if (p, node) in s.handles {
      HandleNamesNode(s, p, node);
      var desc := s.handles[(p, node)];
      IncRefHandles(s, p, desc, strong, target);
      assert s.handles[(p, node) := desc] == s.handles;
    } else {
      AddRefShape(s, p, node, free);
      NewRefCounted(s, p, node, strong, target, free);
    }
  }

  /** Handing out a handle on a node can count it: a weak count always, a strong one if the handle has one
      already, someone is told of it, the node is strongly held, or it is a manager its owner believes held. */
  ghost predicate CanHand(s: State, p: ProcId, node: NodeId, strong: bool, target: Option<(ProcId, Tid)>)
    requires node in s.nodes && ((p, node) in s.handles ==> (p, s.handles[(p, node)]) in s.refs)
  {
    && p in s.procs
    && (|| !strong || target.Some? || s.nodes[node].internalStrong > 0
        || ((p, node) in s.handles && s.refs[(p, s.handles[(p, node)])].strong > 0)
        || (s.nodes[node].proc.Some? && IsContextManager(s, node) && s.nodes[node].hasStrong))
  }

  /** Exactly then it succeeds. */
  lemma IncRefForNodeOk(s: State, p: ProcId, node: NodeId, strong: bool, target: Option<(ProcId, Tid)>, free: nat)
    requires Inv(s) && node in s.nodes && (p, free) !in s.refs
    ensures (p, node) in s.handles ==> (p, s.handles[(p, node)]) in s.refs
    ensures IncRefForNode(s, p, node, strong, target, free).1.Ok? <==> CanHand(s, p, node, strong, target)
  {
    hide Inv, IncRef, AddRef, CleanupRef, HandleSide, IsContextManager;
    InvSides(s);
    HandleSideIsTables(s);
    if p !in s.procs {
    } else if (p, node) in s.handles {
      HandleNamesNode(s, p, node);
      IncRefOk(s, p, s.handles[(p, node)], strong, target);
    } else {
      AddRefIs(s, p, node, free);
      IncRefOk(AddRef(s, p, node, free), p, free, strong, target);
    }
  }

  lemma AddRefIs(s: State, p: ProcId, node: NodeId, desc: nat)
    requires node in s.nodes
    ensures var t := AddRef(s, p, node, desc);
            && node in t.nodes && (p, desc) in t.refs && t.refs[(p, desc)] == Ref(node, 0, 0)
            && t.nodes[node] == s.nodes[node].(refs := s.nodes[node].refs + {p})
            && IsContextManager(t, node) == IsContextManager(s, node)
  {
  }

  lemma IncRefOk(s: State, p: ProcId, desc: nat, strong: bool, target: Option<(ProcId, Tid)>)
    requires (p, desc) in s.refs && s.refs[(p, desc)].node in s.nodes
    ensures var n := s.refs[(p, desc)].node;
            IncRef(s, p, desc, strong, target).Ok? <==>
            || !strong || target.Some? || s.nodes[n].internalStrong > 0 || s.refs[(p, desc)].strong > 0
            || (s.nodes[n].proc.Some? && IsContextManager(s, n) && s.nodes[n].hasStrong)
  {
    hide IncNode, IsContextManager;
    IncNodeOk(s, s.refs[(p, desc)].node, strong, true, target);
  }

  lemma IncNodeOk(s: State, id: NodeId, strong: bool, internal: bool, target: Option<(ProcId, Tid)>)
    requires id in s.nodes
    ensures IncNode(s, id, strong, internal, target).Ok? <==>
            || !strong || !internal || target.Some? || s.nodes[id].internalStrong > 0
            || (s.nodes[id].proc.Some? && IsContextManager(s, id) && s.nodes[id].hasStrong)
  {
  }

  lemma HandleNamesNode(s: State, p: ProcId, node: NodeId)
    requires Inv(s) && (p, node) in s.handles
    ensures (p, s.handles[(p, node)]) in s.refs && s.refs[(p, s.handles[(p, node)])].node == node && p in s.procs
  {
    assert (p, node).1 == node;
  }

  lemma SetTwice<K, V>(m: map<K, V>, k: K, a: V, b: V)
    ensures m[k := a][k := b] == m[k := b]
  {
  }

  lemma SetThenRemoved<K, V>(m: map<K, V>, k: K, v: V)
    requires k !in m
    ensures m[k := v] - {k} == m
  {
  }

  /** A failed one leaves the handle tables as they were. */
  lemma IncRefForNodeFailed(s: State, p: ProcId, node: NodeId, strong: bool, target: Option<(ProcId, Tid)>, free: nat)
    requires Inv(s) && node in s.nodes && (p, free) !in s.refs && IncRefForNode(s, p, node, strong, target, free).1.Err?
    ensures var t := IncRefForNode(s, p, node, strong, target, free).0;
            t.refs == s.refs && t.handles == s.handles
  {
    hide IncRef, HandleSide, NodeSide, AddRef, CleanupRef;
    InvSides(s);
    if p in s.procs && (p, node) !in s.handles {
      AddRefHandles(s, p, node, free);
      AddRefShape(s, p, node, free);
      var t := AddRef(s, p, node, free);
      CleanupHandles(t, p, free);
      SetThenRemoved(s.refs, (p, free), Ref(node, 0, 0));
      SetThenRemoved(s.handles, (p, node), free);
    }
  }

  function Uncounted(r: Ref, strong: bool): Ref {
    if strong then r.(strong := SatSub(r.strong)) else r.(weak := SatSub(r.weak))
  }

  /** What `dec_ref` does to the handle tables: one count less, and the handle gone exactly with its last count. */
  lemma DecRefResult(s: State, p: ProcId, desc: nat, strong: bool)
    requires Inv(s)
    ensures DecRef(s, p, desc, strong).Ok? <==> (p, desc) in s.refs
    ensures (p, desc) in s.refs ==>
              var t, r := DecRef(s, p, desc, strong).value, Uncounted(s.refs[(p, desc)], strong);
              if r.strong + r.weak == 0 then t.refs == s.refs - {(p, desc)} && t.handles == s.handles - {(p, r.node)}
              else t.refs == s.refs[(p, desc) := r] && t.handles == s.handles
  {
    hide DecNode, CleanupRef, HandleSide, NodeSide, Inv, Tables, BackRefs, Holders;
    InvSides(s);
    if (p, desc) in s.refs {
      var r := s.refs[(p, desc)];
      var r' := Uncounted(r, strong);
      if (if strong then r.strong else r.weak) == 0 {
        assert s.refs[(p, desc) := r'] == s.refs;
      } else {
        var t := s.(refs := s.refs[(p, desc) := r']);
        Lowering(s, p, desc, r');
        var u := t;
        if strong && r'.strong == 0 {
          DecNodeRefs(t, r.node, true, true);
          u := DecNode(t, r.node, true, true);
          HandleSideOf(u);
        }
        if r'.strong == 0 && r'.weak == 0 {
          CleanupHandles(u, p, desc);
          SetThenDropped(s.refs, (p, desc), r');
        }
      }
    }
  }

  /** Taking a count and giving it back leaves the handle tables as they were, and with them every node's
      holders and strong count. */
  lemma IncThenDec(s: State, p: ProcId, desc: nat, strong: bool, target: Option<(ProcId, Tid)>)
    requires Inv(s) && (p, desc) in s.refs && TargetOk(s, s.refs[(p, desc)].node, target)
    requires IncRef(s, p, desc, strong, target).Ok?
    ensures var t := IncRef(s, p, desc, strong, target).value;
            && (p, desc) in t.refs && DecRef(t, p, desc, strong).Ok?
            && var u := DecRef(t, p, desc, strong).value;
               && u.refs == s.refs && u.handles == s.handles
               && forall n {:trigger u.nodes[n]} :: n in s.nodes && n in u.nodes ==>
                    u.nodes[n].internalStrong == s.nodes[n].internalStrong && u.nodes[n].refs == s.nodes[n].refs
  {
    hide IncRef, DecRef, HandleSide, NodeSide, Inv, TargetOk;
    InvSides(s);
    var t := IncRef(s, p, desc, strong, target).value;
    IncRefInv(s, p, desc, strong, target);
    IncRefHandles(s, p, desc, strong, target);
    DecRefResult(t, p, desc, strong);
    DecRefInv(t, p, desc, strong);
    var u := DecRef(t, p, desc, strong).value;
    SetTwice(s.refs, (p, desc), t.refs[(p, desc)], s.refs[(p, desc)]);
    SetSame(s.refs, (p, desc));
    AlikeNodes(s, u);
  }

  lemma SetSame<K, V>(m: map<K, V>, k: K)
    requires k in m
    ensures m[k := m[k]] == m
  {
  }

  /** The handle tables determine what the nodes count. */
  lemma AlikeNodes(s: State, t: State)
    requires Inv(s) && Inv(t) && s.refs == t.refs && s.handles == t.handles
    ensures forall n {:trigger t.nodes[n]} :: n in s.nodes && n in t.nodes ==>
              t.nodes[n].internalStrong == s.nodes[n].internalStrong && t.nodes[n].refs == s.nodes[n].refs
  {
    InvParts(s);
    InvParts(t);
    hide Inv, Holders, HoldsStrong, Queued, Owners, Lists, Views, Fresh, Counted;
    forall n | n in s.nodes && n in t.nodes
      ensures t.nodes[n].internalStrong == s.nodes[n].internalStrong && t.nodes[n].refs == s.nodes[n].refs
    {
      SameHolders(s, t, n);
      assert forall p :: p in s.nodes[n].refs <==> p in t.nodes[n].refs;
    }
  }

  lemma UpdateRefInv(s: State, p: ProcId, desc: nat, increment: bool, strong: bool)
    requires Inv(s) && UpdateRefForHandle(s, p, desc, increment, strong).Ok?
    ensures Inv(UpdateRefForHandle(s, p, desc, increment, strong).value)
  {
    hide IncRef, DecRef, Inv;
    if increment {
      InvSides(s);
      IncRefInv(s, p, desc, strong, None);
    } else {
      DecRefInv(s, p, desc, strong);
    }
  }

  // ---- nodes ----

  /** Local references, counted by transactions and buffers. */
  lemma LocalIncInv(s: State, id: NodeId, strong: bool, target: Option<(ProcId, Tid)>)
    requires Inv(s) && TargetOk(s, id, target) && IncNode(s, id, strong, false, target).Ok?
    ensures Inv(IncNode(s, id, strong, false, target).value)
  {
    assert id in s.nodes;
    hide IncNode, HandleSide, NodeSide, TargetOk, Inv;
    InvSides(s);
    IncNodeRefs2(s, id, strong, target);
    IncNodeSide(s, id, strong, false, target);
    InvSides(IncNode(s, id, strong, false, target).value);
  }

  lemma IncNodeRefs2(s: State, id: NodeId, strong: bool, target: Option<(ProcId, Tid)>)
    requires HandleSide(s) && Counted(s) && id in s.nodes && IncNode(s, id, strong, false, target).Ok?
    ensures HandleSide(IncNode(s, id, strong, false, target).value)
            && Counted(IncNode(s, id, strong, false, target).value)
  {
    hide IncNode, Tables, BackRefs, Holders;
    IncNodeRefs(s, id, strong, false, target);
  }

  lemma LocalDecInv(s: State, id: NodeId, strong: bool)
    requires Inv(s)
    ensures Inv(DecNode(s, id, strong, false))
  {
    hide DecNode, Tables, BackRefs, Holders, NodeSide;
    InvSides(s);
    DecNodeRefs(s, id, strong, false);
    DecNodeSide(s, id, strong, false);
    InvSides(DecNode(s, id, strong, false));
  }

  lemma NewNodeOwners(s: State, p: ProcId, ptr: nat, cookie: nat)
    requires Owners(s) && Lists(s) && Views(s) && Fresh(s) && p in s.procs && (p, ptr) !in s.owned
    ensures var t := NewNode(s, p, ptr, cookie).0;
            Owners(t) && Lists(t) && Views(t) && Fresh(t) && s.nextId + 1 !in s.nodes
  {
  }

  lemma NewNodeInv(s: State, p: ProcId, ptr: nat, cookie: nat)
    requires Inv(s) && p in s.procs
    ensures Inv(NewNode(s, p, ptr, cookie).0) && NewNode(s, p, ptr, cookie).1 in NewNode(s, p, ptr, cookie).0.nodes
  {
    InvSides(s);
    if (p, ptr) !in s.owned {
      hide HandleSide, Owners, Lists, Queued, Views, Fresh, Inv;
      var t, id := NewNode(s, p, ptr, cookie).0, NewNode(s, p, ptr, cookie).1;
      NewNodeOwners(s, p, ptr, cookie);
      NewNodeQueued(s, t, id);
      NewNodeHandles(s, t, id);
      InvSides(t);
    }
  }

  lemma NewNodeQueued(s: State, t: State, id: NodeId)
    requires Queued(s) && id !in s.nodes && t.queues == s.queues && id in t.nodes
             && t.nodes == s.nodes[id := t.nodes[id]]
    requires t.nodes[id].workQueued.None?
    ensures Queued(t)
  {
    hide Times;
    forall n | n in t.nodes ensures QueuedAt(t, n) {
      if n != id {
        assert QueuedAt(s, n);
      }
    }
  }

  lemma NewNodeHandles(s: State, t: State, id: NodeId)
    requires HandleSide(s) && id !in s.nodes && t.refs == s.refs && t.handles == s.handles && t.procs == s.procs
    requires id in t.nodes && t.nodes == s.nodes[id := t.nodes[id]] && t.nodes[id].refs == {}
             && t.nodes[id].internalStrong == 0
    ensures HandleSide(t)
  {
    hide Holders;
    SameTables(s, t);
    forall n | n in t.nodes ensures t.nodes[n].internalStrong == |Holders(t, n)| {
      SameHolders(s, t, n);
      if n == id {
        NoHoldersWithoutHandles(s, id);
      }
    }
    forall m, q | m in t.nodes ensures q in t.nodes[m].refs <==> (q, m) in t.handles {
      if m != id {
        assert q in s.nodes[m].refs <==> (q, m) in s.handles;
      }
    }
  }

  // ---- reading node work ----

  /** A node's local counters, flags and queue place can change without touching the handles. */
  lemma NodeEditHandles(s: State, t: State, id: NodeId)
    requires HandleSide(s) && TouchesOnly(s, t, id) && id in s.nodes && id in t.nodes
    requires t.nodes[id].refs == s.nodes[id].refs && t.nodes[id].internalStrong == s.nodes[id].internalStrong
    ensures HandleSide(t)
  {
    hide Holders, Tables, BackRefs;
    SameTables(s, t);
    SameBackRefs(s, t, id);
    forall n | n in t.nodes ensures t.nodes[n].internalStrong == |Holders(t, n)| {
      SameHolders(s, t, n);
    }
  }

  lemma NodeGoneHandles(s: State, t: State, id: NodeId)
    requires HandleSide(s) && TouchesOnly(s, t, id) && id in s.nodes && id !in t.nodes && s.nodes[id].refs == {}
    ensures HandleSide(t)
  {
    hide Holders, Tables, BackRefs;
    SameTables(s, t);
    FewerBackRefs(s, t, id);
    forall n | n in t.nodes ensures t.nodes[n].internalStrong == |Holders(t, n)| {
      SameHolders(s, t, n);
    }
  }

  lemma FrontIsNamed(s: State, l: WorkList)
    requires Queued(s) && l in s.queues && s.queues[l] != [] && s.queues[l][0].NodeWork?
    ensures var id := s.queues[l][0].node;
            id in s.nodes && s.nodes[id].workQueued == Some(l) && s.nodes[id].proc == Some(l.proc)
  {
    var id := s.queues[l][0].node;
    assert s.queues[l][0] in multiset(s.queues[l]);
    assert Times(s.queues[l], id) > 0;
    assert QueuedAt(s, id);
  }

  lemma ReadQueued(s: State, l: WorkList)
    requires Queued(s) && l in s.queues && s.queues[l] != []
    ensures Queued(ReadFront(s, l).0)
  {
    hide Times, Told, Commands;
    var w, t := s.queues[l][0], ReadFront(s, l).0;
    if w.NodeWork? {
      FrontIsNamed(s, l);
      ToldKeeps(s.nodes[w.node]);
      FrontTaken(s, t, l);
    } else {
      FrontTaken(s, t, l);
    }
  }

  /** The front of a list goes, and with it its node leaves or is queued nowhere. */
  lemma FrontTaken(s: State, t: State, l: WorkList)
    requires Queued(s) && l in s.queues && s.queues[l] != [] && t.queues == s.queues[l := s.queues[l][1..]]
    requires var w := s.queues[l][0];
             && (w.NodeWork? ==>
                  w.node in s.nodes && s.nodes[w.node].workQueued == Some(l)
                      && (w.node in t.nodes ==> t.nodes[w.node].workQueued.None?))
             && (forall m {:trigger m in t.nodes} {:trigger m in s.nodes} ::
                  w != NodeWork(m) ==> (m in t.nodes <==> m in s.nodes))
             && (forall m {:trigger t.nodes[m]} :: m in t.nodes && w != NodeWork(m) ==> t.nodes[m] == s.nodes[m])
    ensures Queued(t)
  {
    hide Times;
    var w := s.queues[l][0];
    forall m ensures Times(t.queues[l], m) == Times(s.queues[l], m) - (if w == NodeWork(m) then 1 else 0) {
      TimesRest(s.queues[l], m);
    }
    forall m | m in t.nodes ensures QueuedAt(t, m) {
      assert QueuedAt(s, m);
    }
    forall k, m | k in t.queues && Times(t.queues[k], m) > 0 ensures m in t.nodes {
      assert Times(s.queues[k], m) > 0;
      assert QueuedAt(s, m);
    }
  }

  lemma ToldKeeps(n: Node)
    ensures var m := Told(n);
            && m.proc == n.proc && m.ptr == n.ptr && m.refs == n.refs && m.internalStrong == n.internalStrong
            && m.workQueued.None? && m.hasStrong == StrongNow(n) && m.hasWeak == WeakNow(n)
  {
  }

  lemma ReadNodeShape(s: State, l: WorkList)
    requires l in s.queues && s.queues[l] != [] && s.queues[l][0].NodeWork? && s.queues[l][0].node in s.nodes
    ensures var id, t := s.queues[l][0].node, ReadFront(s, l).0;
            var n := s.nodes[id];
            && TouchesOnly(s, t, id)
            && t.nodes == (if WeakNow(n) then s.nodes[id := Told(n)] else s.nodes - {id})
            && t.owned == (if WeakNow(n) then s.owned else s.owned - {(l.proc, n.ptr)})
            && (!WeakNow(n) ==> n.refs == {})
  {
    hide Told, Commands, StrongNow;
  }

  lemma ReadNodeSides(s: State, l: WorkList)
    requires HandleSide(s) && Owners(s) && Queued(s) && l in s.queues && s.queues[l] != [] && s.queues[l][0].NodeWork?
    ensures var t := ReadFront(s, l).0; HandleSide(t) && Owners(t)
  {
    hide HandleSide, Told, Owners, Queued, ReadFront, WeakNow;
    FrontIsNamed(s, l);
    ReadNodeShape(s, l);
    var id, t := s.queues[l][0].node, ReadFront(s, l).0;
    var n := s.nodes[id];
    ToldKeeps(n);
    if WeakNow(n) {
      NodeEditHandles(s, t, id);
      SameOwners(s, t, id);
    } else {
      NodeGoneHandles(s, t, id);
      GoneOwners(s, t, id);
    }
  }

  /** Reading touches no handle, no list but `l`, and gives no new ids; a node told of is told its true counts. */
  lemma ReadRest(s: State, l: WorkList)
    requires l in s.queues && s.queues[l] != [] && Counted(s) && Lists(s) && Views(s) && Fresh(s)
    requires s.queues[l][0].NodeWork? ==> s.queues[l][0].node in s.nodes
    ensures var t := ReadFront(s, l).0; Counted(t) && Lists(t) && Views(t) && Fresh(t)
  {
    hide ReadFront, Told, Commands;
    var w, t := s.queues[l][0], ReadFront(s, l).0;
    if w.NodeWork? {
      ReadNodeShape(s, l);
      ToldKeeps(s.nodes[w.node]);
      TouchedKeeps(s, t, w.node);
      RefsCounted(s, t);
    } else {
      OtherShape(s, l);
    }
  }

  lemma RefsCounted(s: State, t: State)
    requires Counted(s) && t.refs == s.refs
    ensures Counted(t)
  {
  }

  lemma OtherShape(s: State, l: WorkList)
    requires l in s.queues && s.queues[l] != [] && !s.queues[l][0].NodeWork?
    ensures ReadFront(s, l).0 == s.(queues := s.queues[l := s.queues[l][1..]])
  {
  }

  lemma ReadInv(s: State, l: WorkList)
    requires Inv(s) && l in s.queues && s.queues[l] != []
    ensures Inv(ReadFront(s, l).0)
  {
    hide *;
    InvParts(s);
    var w, t := s.queues[l][0], ReadFront(s, l).0;
    ReadQueued(s, l);
    if w.NodeWork? {
      ReadNodeSides(s, l);
      FrontIsNamed(s, l);
    } else {
      OtherShape(s, l);
      SameStateHandles(s, t);
    }
    ReadRest(s, l);
    InvFrom(t);
  }

  lemma InvParts(s: State)
    requires Inv(s)
    ensures HandleSide(s) && Counted(s) && Owners(s) && Lists(s) && Queued(s) && Views(s) && Fresh(s)
  {
  }

  lemma InvFrom(s: State)
    requires HandleSide(s) && Counted(s) && Owners(s) && Lists(s) && Queued(s) && Views(s) && Fresh(s)
    ensures Inv(s)
  {
  }

  lemma GoneOwners(s: State, t: State, id: NodeId)
    requires Owners(s) && id in s.nodes && s.nodes[id].proc.Some?
    requires t.nodes == s.nodes - {id} && t.procs == s.procs
             && t.owned == s.owned - {(s.nodes[id].proc.value, s.nodes[id].ptr)}
    ensures Owners(t)
  {
    forall k | k in t.owned ensures t.owned[k] in t.nodes {
      assert k != (s.nodes[id].proc.value, s.nodes[id].ptr);
    }
  }

  lemma SameStateHandles(s: State, t: State)
    requires HandleSide(s) && Owners(s) && t == s.(queues := t.queues)
    ensures HandleSide(t) && Owners(t)
  {
    hide Holders;
    forall n | n in t.nodes ensures t.nodes[n].internalStrong == |Holders(t, n)| {
      SameHolders(s, t, n);
    }
  }

  lemma OtherWorkQueued(s: State, l: WorkList, tag: int)
    requires Queued(s)
    ensures Queued(Enqueue(s, l, OtherWork(tag)))
  {
    hide Times;
    var t := Enqueue(s, l, OtherWork(tag));
    if l in s.queues {
      forall m ensures Times(t.queues[l], m) == Times(s.queues[l], m) {
        TimesAppended(s.queues[l], OtherWork(tag), m);
      }
      forall m | m in t.nodes ensures QueuedAt(t, m) {
        assert QueuedAt(s, m);
      }
    }
  }

  /** Other work comes and goes without disturbing node work. */
  lemma OtherWorkInv(s: State, l: WorkList, tag: int)
    requires Inv(s)
    ensures Inv(Enqueue(s, l, OtherWork(tag)))
  {
    hide HandleSide, Owners, Queued;
    InvSides(s);
    OtherWorkQueued(s, l, tag);
    SameStateHandles(s, Enqueue(s, l, OtherWork(tag)));
    InvSides(Enqueue(s, l, OtherWork(tag)));
  }

  lemma DoneInv(s: State, p: ProcId, ptr: nat, cookie: nat, strong: bool)
    requires Inv(s)
    ensures Inv(Done(s, p, ptr, cookie, strong))
  {
    hide Inv, DecNode, HandleSide, NodeSide;
    if (p, ptr) in s.owned && s.owned[(p, ptr)] in s.nodes {
      var id := s.owned[(p, ptr)];
      var n := s.nodes[id];
      var m := if strong then n.(pendingStrong := false) else n.(pendingWeak := false);
      ViewsImply(s, id);
      FlagsEdited(s, id, m);
      LocalDecInv(SetNode(s, id, m), id, strong);
    }
  }

  /** Local counters and flags of a node can be set freely as long as a strong view is a weak one. */
  lemma FlagsEdited(s: State, id: NodeId, m: Node)
    requires Inv(s) && id in s.nodes && SameIdentity(m, s.nodes[id]) && (m.hasStrong ==> m.hasWeak)
    requires m.refs == s.nodes[id].refs && m.internalStrong == s.nodes[id].internalStrong
    ensures Inv(SetNode(s, id, m))
  {
    hide HandleSide, NodeSide;
    InvSides(s);
    var t := SetNode(s, id, m);
    NodeSideSetNode(s, id, m);
    NodeEditHandles(s, t, id);
    InvSides(t);
  }

  lemma ViewsImply(s: State, id: NodeId)
    requires Inv(s) && id in s.nodes
    ensures s.nodes[id].hasStrong ==> s.nodes[id].hasWeak
  {
  }

  lemma ManagerInv(s: State, p: ProcId, ptr: nat, cookie: nat)
    requires Inv(s) && p in s.procs && s.procs[p].context in s.contexts
    requires (p, ptr) in s.owned ==> s.owned[(p, ptr)] in s.nodes
    requires SetContextManager(s, p, ptr, cookie).Ok?
    ensures Inv(SetContextManager(s, p, ptr, cookie).value)
  {
    hide Inv, NewNode;
    NewNodeInv(s, p, ptr, cookie);
    var t, id := NewNode(s, p, ptr, cookie).0, NewNode(s, p, ptr, cookie).1;
    var n := t.nodes[id];
    var m := n.(localWeak := n.localWeak + 1, localStrong := n.localStrong + 1, hasStrong := true, hasWeak := true);
    FlagsEdited(t, id, m);
    var u := SetContextManager(s, p, ptr, cookie).value;
    ContextsEdited(SetNode(t, id, m), u.contexts);
  }

  lemma ContextsEdited(s: State, contexts: map<nat, Context>)
    requires Inv(s)
    ensures Inv(s.(contexts := contexts))
  {
    hide Holders, Times;
    var t := s.(contexts := contexts);
    forall n | n in t.nodes ensures t.nodes[n].internalStrong == |Holders(t, n)| && QueuedAt(t, n) {
      SameHolders(s, t, n);
      assert QueuedAt(s, n);
    }
  }

  lemma NewListInv(s: State, t: State, l: WorkList)
    requires Inv(s) && l !in s.queues && t.queues == s.queues[l := []]
    requires t.refs == s.refs && t.handles == s.handles && t.owned == s.owned && t.nodes == s.nodes
    requires s.nextId <= t.nextId && (forall p :: p in s.procs ==> p in t.procs)
    requires forall p :: p in t.procs && p !in s.procs ==> l == ProcList(p) && p <= t.nextId
    requires l.proc in t.procs
    ensures Inv(t)
  {
    hide Holders;
    assert forall n :: Times([], n) == 0;
    hide Times;
    forall n | n in t.nodes ensures t.nodes[n].internalStrong == |Holders(t, n)| && QueuedAt(t, n) {
      SameHolders(s, t, n);
      assert QueuedAt(s, n);
    }
  }

  lemma NewProcInv(s: State, context: nat, euid: nat)
    requires Inv(s)
    ensures Inv(NewProc(s, context, euid).0)
  {
    var t, id := NewProc(s, context, euid).0, NewProc(s, context, euid).1;
    assert ProcList(id) !in s.queues;
    NewListInv(s, t, ProcList(id));
  }

  lemma NewThreadInv(s: State, p: ProcId, t: Tid)
    requires Inv(s)
    ensures Inv(NewThread(s, p, t))
  {
    if p in s.procs && ThreadList(p, t) !in s.queues {
      NewListInv(s, NewThread(s, p, t), ThreadList(p, t));
    }
  }
}
