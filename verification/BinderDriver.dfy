/** The driver state as the program keeps it, changed in place, step for step as
    `crates/aim-binder-driver/src/state.rs` does.

    A driver remembers, for the proof, the run it has made: it is valid when that run leads to its
    fields, so that everything proved of runs holds of it. The methods up to "what the driver does" are
    its working parts, on any fields; the others are its entry points and keep it valid. */
module BinderDriver {
  import opened Common
  import opened BinderState
  import opened BinderInvariant
  import opened BinderSteps
  import opened BinderLocals
  import opened BinderRelease
  import opened BinderNotices
  import opened BinderRuns
  import opened BinderManager
  import opened BinderOrphans

  /** Where `w` first stands in a queue, or its length. */
  method Position(q: seq<Work>, w: Work) returns (i: nat)
    ensures i <= |q| && (i < |q| ==> q[i] == w) && w !in q[..i]
  {
    i := 0;
    while i < |q| && q[i] != w
      invariant i <= |q| && w !in q[..i]
    {
      i := i + 1;
    }
  }

  lemma {:induction false} RemovedAt(q: seq<Work>, w: Work, i: nat)
    requires i <= |q| && (i < |q| ==> q[i] == w) && w !in q[..i]
    ensures RemoveFirst(q, w) == if i < |q| then q[..i] + q[i + 1..] else q
  {
    if q != [] && i > 0 {
      assert q[0] == q[..i][0];
      assert q[1..][..i - 1] == q[..i][1..];
      RemovedAt(q[1..], w, i - 1);
      if i < |q| {
        assert [q[0]] + (q[1..][..i - 1] + q[1..][i..]) == q[..i] + q[i + 1..];
      }
    }
  }

  /** The descriptors a process uses from `first` on, in order. */
  ghost predicate Used(refs: map<(ProcId, nat), Ref>, p: ProcId, first: nat, used: seq<nat>) {
    && (forall i, j :: 0 <= i < j < |used| ==> used[i] < used[j])
    && (forall d :: d in used <==> first <= d && (p, d) in refs)
  }

  /** The first gap in the descriptors used. */
  method LowestFree(s: State, p: ProcId, first: nat, used: seq<nat>) returns (desc: nat)
    requires Used(s.refs, p, first, used)
    ensures IsLowestFree(s, p, first, desc)
  {
    desc := first;
    var i := 0;
    while i < |used|
      invariant i <= |used| && first <= desc
      invariant forall d :: first <= d < desc ==> d in used
      invariant forall j :: 0 <= j < i ==> used[j] < desc
    {
      if used[i] > desc {
        break;
      }
      assert used[i] in used;
      desc := used[i] + 1;
      i := i + 1;
    }
    assert desc !in used;
  }

  class Driver {
    var contexts: map<nat, Context>
    var procs: map<ProcId, Proc>
    var owned: map<(ProcId, nat), NodeId>
    var refs: map<(ProcId, nat), Ref>
    var handles: map<(ProcId, NodeId), nat>
    var queues: map<WorkList, seq<Work>>
    var nodes: map<NodeId, Node>
    var nextId: nat
    ghost var run: seq<Step>

    function Value(): State
      reads this
    {
      State(contexts, procs, owned, refs, handles, queues, nodes, nextId)
    }

    /** The run so far leads to the fields, so their redundant parts agree. */
    ghost predicate Valid()
      reads this
    {
      Leads(run, Value())
    }

    constructor ()
      ensures Valid() && run == []
      ensures Value() == State(map[], map[], map[], map[], map[], map[], map[], 0)
    {
      contexts, procs, owned, refs, handles, queues, nodes, nextId := map[], map[], map[], map[], map[], map[], map[],
          0;
      run := [];
      new;
      Begun();
    }

    // ---- work queues ----

    method PushWork(l: WorkList, w: Work)
      modifies this
      ensures run == old(run)
      ensures Value() == Enqueue(old(Value()), l, w)
    {
      if l in queues {
        queues := queues[l := queues[l] + [w]];
      }
    }

    method RemoveWork(l: WorkList, w: Work)
      modifies this
      ensures run == old(run)
      ensures Value() ==
              old(Value()).(queues := if l in old(queues) then old(queues)[l := RemoveFirst(old(queues)[l], w)]
                  else old(queues))
    {
      if l in queues {
        var q := queues[l];
        var i := Position(q, w);
        RemovedAt(q, w, i);
        if i < |q| {
          queues := queues[l := q[..i] + q[i + 1..]];
        } else {
          assert queues[l := q] == queues;
        }
      }
    }

    method DequeueNode(id: NodeId)
      modifies this
      ensures run == old(run)
      ensures Value() == DequeueNodeWork(old(Value()), id)
    {
      if id in nodes && nodes[id].workQueued.Some? {
        var l := nodes[id].workQueued.value;
        nodes := nodes[id := nodes[id].(workQueued := None)];
        RemoveWork(l, NodeWork(id));
      }
    }

    method MakeProc(context: nat, euid: nat) returns (p: ProcId)
      modifies this
      ensures run == old(run)
      ensures (Value(), p) == NewProc(old(Value()), context, euid)
    {
      nextId := nextId + 1;
      p := nextId;
      if context !in contexts {
        contexts := contexts[context := Context(None, None)];
      }
      procs := procs[p := Proc(context, euid)];
      queues := queues[ProcList(p) := []];
    }

    // ---- nodes ----

    method NodeFor(p: ProcId, ptr: nat, cookie: nat) returns (id: NodeId)
      requires p in procs
      modifies this
      ensures run == old(run)
      ensures (Value(), id) == NewNode(old(Value()), p, ptr, cookie)
    {
      if (p, ptr) in owned {
        return owned[(p, ptr)];
      }
      nextId := nextId + 1;
      id := nextId;
      nodes := nodes[id := Node(Some(p), procs[p].context, ptr, cookie, 0, 0, 0, {}, false, false, false, false, None)];
      owned := owned[(p, ptr) := id];
    }

    method QueueNode(id: NodeId, l: WorkList)
      requires id in nodes
      modifies this
      ensures run == old(run)
      ensures Value() == QueueNodeWork(old(Value()), id, l)
    {
      nodes := nodes[id := nodes[id].(workQueued := Some(l))];
      PushWork(l, NodeWork(id));
    }

    method RaiseNode(id: NodeId, strong: bool, internal: bool, target: Option<(ProcId, Tid)>)
        returns (error: Option<Errno>)
      modifies this
      ensures run == old(run)
      ensures match IncNode(old(Value()), id, strong, internal, target)
              case Ok(s) => error == None && Value() == s
              case Err(e) => error == Some(e) && Value() == old(Value())
    {
      hide DequeueNodeWork, QueueNodeWork;
      if id !in nodes {
        return Some(EINVAL);
      }
      var n := nodes[id];
      if strong {
        if internal {
          if target.None? && n.internalStrong == 0 && !(n.proc.Some? && IsContextManager(Value(), id) && n.hasStrong) {
            return Some(EINVAL);
          }
          nodes := nodes[id := n.(internalStrong := n.internalStrong + 1)];
        } else {
          nodes := nodes[id := n.(localStrong := n.localStrong + 1)];
        }
        if !n.hasStrong && target.Some? {
          ghost var was := Value();
          DequeueNode(id);
          StillThere(was, id);
          QueueNode(id, ThreadList(target.value.0, target.value.1));
        }
      } else {
        if !internal {
          nodes := nodes[id := n.(localWeak := n.localWeak + 1)];
        }
        if !n.hasWeak && n.workQueued.None? && target.Some? {
          QueueNode(id, ThreadList(target.value.0, target.value.1));
        }
      }
      return None;
    }

    method RemoveNode(id: NodeId)
      requires id in nodes
      modifies this
      ensures run == old(run)
      ensures Value() == DropNode(old(Value()), id)
    {
      hide DequeueNodeWork;
      var n := nodes[id];
      if n.proc.Some? {
        DequeueNode(id);
        owned := owned - {(n.proc.value, n.ptr)};
      }
      nodes := nodes - {id};
    }

    method ReleaseLast(id: NodeId)
      requires id in nodes
      modifies this
      ensures run == old(run)
      ensures Value() == LastReferenceGone(old(Value()), id)
    {
      hide QueueNodeWork, DropNode;
      var n := nodes[id];
      if n.proc.Some? && (n.hasStrong || n.hasWeak) {
        if n.workQueued.None? {
          QueueNode(id, ProcList(n.proc.value));
        }
      } else if n.refs == {} && n.localStrong == 0 && n.localWeak == 0 {
        RemoveNode(id);
      }
    }

    method LowerNode(id: NodeId, strong: bool, internal: bool)
      modifies this
      ensures run == old(run)
      ensures Value() == DecNode(old(Value()), id, strong, internal)
    {
      hide LastReferenceGone;
      if id !in nodes {
        return;
      }
      var n := nodes[id];
      if strong {
        if internal {
          n := n.(internalStrong := SatSub(n.internalStrong));
        } else {
          n := n.(localStrong := SatSub(n.localStrong));
        }
        nodes := nodes[id := n];
        if n.localStrong != 0 || n.internalStrong != 0 {
          return;
        }
      } else {
        if !internal {
          n := n.(localWeak := SatSub(n.localWeak));
        }
        nodes := nodes[id := n];
        if n.localWeak != 0 || n.refs != {} {
          return;
        }
      }
      ReleaseLast(id);
    }

    // ---- handles ----

    method RaiseRef(p: ProcId, desc: nat, strong: bool, target: Option<(ProcId, Tid)>) returns (error: Option<Errno>)
      requires (p, desc) in refs
      modifies this
      ensures run == old(run)
      ensures match IncRef(old(Value()), p, desc, strong, target)
              case Ok(s) => error == None && Value() == s
              case Err(e) => error == Some(e) && Value() == old(Value())
    {
      hide IncNode;
      var r := refs[(p, desc)];
      if (if strong then r.strong else r.weak) == 0 {
        error := RaiseNode(r.node, strong, true, target);
        if error.Some? {
          return;
        }
      }
      refs := refs[(p, desc) := if strong then r.(strong := r.strong + 1) else r.(weak := r.weak + 1)];
      return None;
    }

    method DropRef(p: ProcId, desc: nat)
      modifies this
      ensures run == old(run)
      ensures Value() == CleanupRef(old(Value()), p, desc)
    {
      hide DecNode;
      if (p, desc) !in refs {
        return;
      }
      var r := refs[(p, desc)];
      refs := refs - {(p, desc)};
      handles := handles - {(p, r.node)};
      if r.strong != 0 {
        LowerNode(r.node, true, true);
      }
      if r.node in nodes {
        nodes := nodes[r.node := nodes[r.node].(refs := nodes[r.node].refs - {p})];
      }
      LowerNode(r.node, false, true);
    }

    method LowerRef(p: ProcId, desc: nat, strong: bool) returns (error: Option<Errno>)
      modifies this
      ensures run == old(run)
      ensures match DecRef(old(Value()), p, desc, strong)
              case Ok(s) => error == None && Value() == s
              case Err(e) => error == Some(e) && Value() == old(Value())
    {
      hide DecNode, CleanupRef;
      if (p, desc) !in refs {
        return Some(EINVAL);
      }
      var r := refs[(p, desc)];
      if strong {
        if r.strong == 0 {
          return None;
        }
        r := r.(strong := r.strong - 1);
        refs := refs[(p, desc) := r];
        if r.strong == 0 {
          LowerNode(r.node, true, true);
        }
      } else {
        if r.weak == 0 {
          return None;
        }
        r := r.(weak := r.weak - 1);
        refs := refs[(p, desc) := r];
      }
      if r.strong == 0 && r.weak == 0 {
        DropRef(p, desc);
      }
      return None;
    }

    method ChangeRef(p: ProcId, desc: nat, increment: bool, strong: bool) returns (error: Option<Errno>)
      modifies this
      ensures run == old(run)
      ensures match UpdateRefForHandle(old(Value()), p, desc, increment, strong)
              case Ok(s) => error == None && Value() == s
              case Err(e) => error == Some(e) && Value() == old(Value())
    {
      hide IncRef, DecRef;
      if (p, desc) !in refs || (strong && refs[(p, desc)].strong == 0) {
        return Some(EINVAL);
      }
      if increment {
        error := RaiseRef(p, desc, strong, None);
      } else {
        error := LowerRef(p, desc, strong);
      }
    }

    /** `used` is the order in which the descriptor table is walked for a free one. */
    method AcquireHandle(p: ProcId, node: NodeId, strong: bool, target: Option<(ProcId, Tid)>, used: seq<nat>)
      returns (r: Result<nat>, ghost free: nat)
      requires (p, node) in handles ==> (p, handles[(p, node)]) in refs
      requires Used(refs, p, if IsContextManager(Value(), node) then 0 else 1, used)
      modifies this
      ensures run == old(run)
      ensures IsLowestFree(old(Value()), p, if IsContextManager(old(Value()), node) then 0 else 1, free)
      ensures (Value(), r) == IncRefForNode(old(Value()), p, node, strong, target, free)
    {
      hide IncRef, CleanupRef;
      var desc := LowestFree(Value(), p, if IsContextManager(Value(), node) then 0 else 1, used);
      free := desc;
      if p !in procs {
        return Err(ESRCH), free;
      }
      if (p, node) in handles {
        desc := handles[(p, node)];
        var error := RaiseRef(p, desc, strong, target);
        return if error.Some? then Err(error.value) else Ok(desc), free;
      }
      refs := refs[(p, desc) := Ref(node, 0, 0)];
      handles := handles[(p, node) := desc];
      if node !in nodes {
        return Err(EINVAL), free;
      }
      nodes := nodes[node := nodes[node].(refs := nodes[node].refs + {p})];
      var error := RaiseRef(p, desc, strong, target);
      if error.Some? {
        DropRef(p, desc);
        return Err(error.value), free;
      }
      return Ok(desc), free;
    }

    // ---- reading node work ----

    method TellOwner(p: ProcId, id: NodeId) returns (out: seq<Command>)
      modifies this
      ensures run == old(run)
      ensures (Value(), out) == NodeWorkRead(old(Value()), p, id)
    {
      out := [];
      if id !in nodes {
        return;
      }
      var was := nodes[id];
      var n := was.(workQueued := None);
      var strong := n.internalStrong != 0 || n.localStrong != 0;
      var weak := n.refs != {} || n.localWeak != 0 || strong;
      if weak && !was.hasWeak {
        n := n.(hasWeak := true, pendingWeak := true, localWeak := n.localWeak + 1);
      }
      if strong && !was.hasStrong {
        n := n.(hasStrong := true, pendingStrong := true, localStrong := n.localStrong + 1);
      }
      if !strong && was.hasStrong {
        n := n.(hasStrong := false);
      }
      if !weak && was.hasWeak {
        n := n.(hasWeak := false);
      }
      assert weak ==> n == Told(was);
      nodes := nodes[id := n];
      if !weak && !strong {
        owned := owned - {(p, n.ptr)};
        nodes := nodes - {id};
        assert nodes == old(nodes) - {id};
      }
      if weak && !was.hasWeak {
        out := out + [INCREFS];
      }
      if strong && !was.hasStrong {
        out := out + [ACQUIRE];
      }
      if !strong && was.hasStrong {
        out := out + [RELEASE];
      }
      if !weak && was.hasWeak {
        out := out + [DECREFS];
      }
      assert out == Commands(was);
    }

    method SetManager(p: ProcId, ptr: nat, cookie: nat) returns (error: Option<Errno>)
      requires p in procs && procs[p].context in contexts
      requires (p, ptr) in owned ==> owned[(p, ptr)] in nodes
      modifies this
      ensures run == old(run)
      ensures match SetContextManager(old(Value()), p, ptr, cookie)
              case Ok(s) => error == None && Value() == s
              case Err(e) => error == Some(e) && Value() == old(Value())
    {
      var c := procs[p].context;
      if contexts[c].mgrNode.Some? {
        return Some(EBUSY);
      }
      var euid := procs[p].euid;
      if contexts[c].mgrUid.Some? && contexts[c].mgrUid.value != euid {
        return Some(EPERM);
      }
      ghost var before := contexts;
      contexts := contexts[c := contexts[c].(mgrUid := Some(euid))];
      var id := NodeFor(p, ptr, cookie);
      var n := nodes[id];
      nodes := nodes[id := n.(localWeak := n.localWeak + 1, localStrong := n.localStrong + 1, hasStrong := true,
          hasWeak := true)];
      contexts := contexts[c := contexts[c].(mgrNode := Some(id))];
      assert contexts == before[c := Context(Some(id), Some(euid))];
      return None;
    }

    // ---- threads and processes leave ----

    /** Node work that is dropped is queued nowhere. */
    method DropWork(work: seq<Work>)
      modifies this
      ensures run == old(run)
      ensures Value() == Forgotten(old(Value()), work)
    {
      hide Forgotten;
      NothingForgotten(Value());
      var i := 0;
      while i < |work|
        invariant i <= |work| && Value() == Forgotten(old(Value()), work[..i]) && run == old(run)
      {
        var w := work[i];
        if w.NodeWork? && w.node in nodes {
          nodes := nodes[w.node := nodes[w.node].(workQueued := None)];
        }
        ForgottenOne(old(Value()), work, i);
        i := i + 1;
      }
      assert work[..i] == work;
    }

    method DropThread(p: ProcId, t: Tid)
      modifies this
      ensures run == old(run)
      ensures Value() == ThreadRelease(old(Value()), p, t)
    {
      hide Forgotten;
      var l := ThreadList(p, t);
      if l in queues {
        var todo := queues[l];
        queues := queues - {l};
        DropWork(todo);
      }
    }

    method ReleaseNode(id: NodeId)
      modifies this
      ensures run == old(run)
      ensures Value() == NodeReleased(old(Value()), id)
    {
      if id !in nodes {
        return;
      }
      nodes := nodes[id := nodes[id].(workQueued := None)];
      if nodes[id].refs == {} {
        nodes := nodes - {id};
        assert nodes == old(nodes) - {id};
        return;
      }
      nodes := nodes[id := nodes[id].(proc := None, localStrong := 0, localWeak := 0)];
      assert nodes ==
             old(nodes)[id := old(nodes)[id].(proc := None, localStrong := 0, localWeak := 0, workQueued := None)];
    }

    /** The owner's table is emptied, then its nodes are released one by one. */
    method ReleaseNodes(p: ProcId, ids: seq<NodeId>)
      requires forall n :: n in ids <==> n in nodes && nodes[n].proc == Some(p)
      modifies this
      ensures run == old(run)
      ensures Value() == NodesReleased(old(Value()), p)
    {
      hide NodeReleased;
      owned := map k | k in owned && k.0 != p :: owned[k];
      ghost var start := Value();
      var i := 0;
      assert NodesReleasedOf(start, p, []) == start by { NoneReleased(start, p); }
      while i < |ids|
        invariant i <= |ids| && Value() == NodesReleasedOf(start, p, ids[..i]) && run == old(run)
      {
        ReleaseNode(ids[i]);
        ReleasedOne(start, p, ids, i);
        i := i + 1;
      }
      assert ids[..i] == ids;
      AllReleased(old(Value()), p, ids);
    }

    /** `tids`, `ids` and `descs` are the orders in which the process's tables are walked. */
    method DropProc(p: ProcId, tids: seq<Tid>, ids: seq<NodeId>, descs: seq<nat>)
      requires forall n :: n in ids <==> n in nodes && nodes[n].proc == Some(p)
      modifies this
      ensures run == old(run)
      ensures Value() == ReleaseProc(old(Value()), p, tids, descs)
    {
      hide ThreadRelease, NodesReleased, CleanupRef, Forgotten;
      if p !in procs {
        return;
      }
      var c := procs[p].context;
      if c in contexts && contexts[c].mgrNode.Some? && contexts[c].mgrNode.value in nodes
         && nodes[contexts[c].mgrNode.value].proc == Some(p) {
        contexts := contexts[c := contexts[c].(mgrNode := None)];
      }
      ghost var a := Value();
      var i := 0;
      while i < |tids|
        invariant i <= |tids| && Value() == ThreadsReleased(a, p, tids[..i]) && run == old(run)
        invariant forall n :: n in ids <==> n in nodes && nodes[n].proc == Some(p)
      {
        OwnersStay(Value(), p, tids[i]);
        DropThread(p, tids[i]);
        assert tids[..i + 1][..i] == tids[..i];
        i := i + 1;
      }
      assert tids[..i] == tids;
      ReleaseNodes(p, ids);
      ghost var b := Value();
      i := 0;
      while i < |descs|
        invariant i <= |descs| && Value() == RefsReleased(b, p, descs[..i]) && run == old(run)
      {
        DropRef(p, descs[i]);
        assert descs[..i + 1][..i] == descs[..i];
        i := i + 1;
      }
      assert descs[..i] == descs;
      if ProcList(p) in queues {
        DropWork(queues[ProcList(p)]);
      }
      queues := queues - {ProcList(p)};
      procs := procs - {p};
    }

    // ---- what the driver does ----

    method AddProc(context: nat, euid: nat) returns (p: ProcId)
      requires Valid()
      modifies this
      ensures Valid() && run == old(run) + [BinderRuns.AddProc(context, euid)]
      ensures p !in old(procs) && procs == old(procs)[p := Proc(context, euid)]
    {
      hide Inv, Exec, Known;
      ghost var s, step := Value(), BinderRuns.AddProc(context, euid);
      NewIsFresh(s);
      p := MakeProc(context, euid);
      ExecMore(run, step);
      run := run + [step];
    }

    method AddThread(p: ProcId, t: Tid)
      requires Valid()
      modifies this
      ensures Valid() && run == old(run) + [BinderRuns.AddThread(p, t)]
      ensures p in procs ==> ThreadList(p, t) in queues
    {
      hide Inv, Exec, Known;
      ghost var step := BinderRuns.AddThread(p, t);
      if p in procs && ThreadList(p, t) !in queues {
        queues := queues[ThreadList(p, t) := []];
      }
      ExecMore(run, step);
      run := run + [step];
    }

    /** The node a process has for a pointer. */
    method MakeNode(p: ProcId, ptr: nat, cookie: nat) returns (id: NodeId)
      requires Valid() && p in procs
      modifies this
      ensures Valid() && run == old(run) + [AddNode(p, ptr, cookie)]
      ensures id in nodes && nodes[id].proc == Some(p) && nodes[id].ptr == ptr && owned == old(owned)[(p, ptr) := id]
    {
      hide Inv, Exec, Known;
      ghost var s, step := Value(), AddNode(p, ptr, cookie);
      id := NodeFor(p, ptr, cookie);
      NodeIsMade(s, p, ptr, cookie);
      ExecMore(run, step);
      run := run + [step];
    }

    /** A handle of `p` on a node. Of a node that is gone it leaves one behind that names nothing, and the
        driver is valid no more; of every other, and for a process that is gone, it stays valid. */
    method HandleFor(p: ProcId, node: NodeId, strong: bool, target: Option<(ProcId, Tid)>, used: seq<nat>)
        returns (r: Result<nat>)
      requires Valid() && TargetOk(Value(), node, target)
      requires Used(refs, p, if IsContextManager(Value(), node) then 0 else 1, used)
      modifies this
      ensures Inv(Value()) <==> node in old(nodes) || p !in old(procs)
      ensures node in old(nodes) ==> Valid()
      ensures node in old(nodes) && r.Ok? ==>
                var was := if (p, r.value) in old(refs) then old(refs)[(p, r.value)] else Ref(node, 0, 0);
                && handles == old(handles)[(p, node) := r.value] && was.node == node
                && refs == old(refs)[(p, r.value) := Recounted(was, strong)]
      ensures node in old(nodes) && r.Err? ==> refs == old(refs) && handles == old(handles)
      ensures (p, node) in old(handles) ==> (p, old(handles)[(p, node)]) in old(refs)
      ensures node in old(nodes) ==> (r.Ok? <==> CanHand(old(Value()), p, node, strong, target))
      ensures node in old(nodes) && r.Ok? ==>
                Handed(old(Value()), Value(), p, node, r.value, strong, target)
    {
      hide Inv, Exec, Known, IncRefForNode, TargetOk, CanHand, Handed;
      ghost var s := Value();
      InvNames(s);
      ghost var free;
      r, free := AcquireHandle(p, node, strong, target, used);
      IncRefForNodeKeepsInv(s, p, node, strong, target, free);
      if node in s.nodes {
        ghost var step := Hand(p, node, strong, target, free);
        IncRefForNodeOk(s, p, node, strong, target, free);
        if r.Ok? {
          IncRefForNodeResult(s, p, node, strong, target, free);
          HandedNode(s, p, node, strong, target, free);
        } else {
          IncRefForNodeFailed(s, p, node, strong, target, free);
        }
        ExecMore(run, step);
        run := run + [step];
      }
    }

    /** One count of a handle more or less; the handle goes with its last. */
    method UpdateRef(p: ProcId, desc: nat, increment: bool, strong: bool) returns (error: Option<Errno>)
      requires Valid()
      modifies this
      ensures Valid() && run == old(run) + [BinderRuns.UpdateRef(p, desc, increment, strong)]
      ensures error.Some? <==> (p, desc) !in old(refs) || (strong && old(refs)[(p, desc)].strong == 0)
      ensures error.Some? ==> Value() == old(Value())
      ensures error.None? && increment ==>
                refs == old(refs)[(p, desc) := Recounted(old(refs)[(p, desc)], strong)] && handles == old(handles)
      ensures error.None? && !increment ==>
                var r := Uncounted(old(refs)[(p, desc)], strong);
                if r.strong + r.weak == 0
                    then refs == old(refs) - {(p, desc)} && handles == old(handles) - {(p, r.node)}
                else refs == old(refs)[(p, desc) := r] && handles == old(handles)
    {
      hide Leads, Inv, UpdateRefForHandle;
      ghost var s := Value();
      LeadsInv(run, s);
      Updates(run, s, p, desc, increment, strong);
      RefIsUpdated(s, p, desc, increment, strong);
      error := ChangeRef(p, desc, increment, strong);
      run := run + [BinderRuns.UpdateRef(p, desc, increment, strong)];
    }

    /** The front of a queue is read. Of a node's work the owner hears exactly how its references stand. */
    method ReadWork(l: WorkList) returns (out: seq<Command>)
      requires Valid() && l in queues && queues[l] != []
      modifies this
      ensures Valid() && run == old(run) + [Read(l)]
      ensures queues == old(queues)[l := old(queues)[l][1..]]
      ensures old(queues)[l][0].NodeWork? ==>
                var id := old(queues)[l][0].node;
                && id in old(nodes) && old(nodes)[id].proc == Some(l.proc)
                && var n := old(nodes)[id];
                   && Replay(View(n.hasWeak, n.hasStrong), out) == Some(View(WeakNow(n), StrongNow(n)))
                   && (id in nodes <==> WeakNow(n))
    {
      hide Inv, Exec, Known, NodeWorkRead;
      ghost var s, step := Value(), Read(l);
      InvNames(s);
      ReadTells(s, l);
      var w := queues[l][0];
      queues := queues[l := queues[l][1..]];
      out := [];
      if w.NodeWork? {
        out := TellOwner(l.proc, w.node);
      }
      ExecMore(run, step);
      run := run + [step];
    }

    /** The owner has taken the reference it was told of. */
    method Acknowledge(p: ProcId, ptr: nat, cookie: nat, strong: bool)
      requires Valid()
      modifies this
      ensures Valid() && run == old(run) + [BinderRuns.Acknowledge(p, ptr, cookie, strong)]
      ensures !old(Awaited(Value(), p, ptr, cookie, strong)) ==> Value() == old(Value())
      ensures old(Awaited(Value(), p, ptr, cookie, strong)) ==>
                var id := old(owned)[(p, ptr)];
                var n := Acknowledged(old(nodes)[id], strong);
                && TouchesOnly(old(Value()), Value(), id)
                && (id !in nodes <==> LastTie(n, strong))
                && (id in nodes ==>
                      Recount(nodes[id], n, if strong then GivenBack(n.localStrong) else n.localStrong,
                              if strong then n.localWeak else GivenBack(n.localWeak)))
    {
      hide Leads, DecNode, Inv, TouchesOnly, LastTie, Recount;
      ghost var s := Value();
      LeadsInv(run, s);
      Acknowledges(run, s, p, ptr, cookie, strong);
      AcknowledgedIs(s, p, ptr, cookie, strong);
      if (p, ptr) in owned && owned[(p, ptr)] in nodes {
        var id := owned[(p, ptr)];
        var n := nodes[id];
        if n.cookie == cookie && (if strong then n.pendingStrong else n.pendingWeak) {
          nodes := nodes[id := if strong then n.(pendingStrong := false) else n.(pendingWeak := false)];
          LowerNode(id, strong, false);
        }
      }
      run := run + [BinderRuns.Acknowledge(p, ptr, cookie, strong)];
    }

    /** A transaction or a buffer takes a local reference, */
    method TakeLocal(id: NodeId, strong: bool, target: Option<(ProcId, Tid)>) returns (error: Option<Errno>)
      requires Valid() && TargetOk(Value(), id, target)
      modifies this
      ensures Valid() && run == old(run) + [BinderRuns.TakeLocal(id, strong, target)]
      ensures error.Some? <==> id !in old(nodes)
      ensures error.Some? ==> Value() == old(Value())
      ensures error.None? ==>
                var n := old(nodes)[id];
                && TouchesOnly(old(Value()), Value(), id) && id in nodes && owned == old(owned)
                && Recount(nodes[id], n, if strong then n.localStrong + 1 else n.localStrong,
                           if strong then n.localWeak else n.localWeak + 1)
                && nodes[id].workQueued == QueuedFor(n, strong, target)
                && queues == QueuesFor(old(Value()), id, strong, target)
    {
      hide Inv, Exec, Known, TargetOk, IncNode, TouchesOnly, Recount, QueuedFor, QueuesFor;
      ghost var s, step := Value(), BinderRuns.TakeLocal(id, strong, target);
      InvNames(s);
      TakeOk(s, id, strong, target);
      if id in s.nodes {
        LocalTaken(s, id, strong, target);
      }
      error := RaiseNode(id, strong, false, target);
      ExecMore(run, step);
      run := run + [step];
    }

    /** and gives it back. */
    method GiveLocal(id: NodeId, strong: bool)
      requires Valid()
      modifies this
      ensures Valid() && run == old(run) + [BinderRuns.GiveLocal(id, strong)]
      ensures id !in old(nodes) ==> Value() == old(Value())
      ensures id in old(nodes) ==>
                var n := old(nodes)[id];
                && TouchesOnly(old(Value()), Value(), id)
                && (id !in nodes <==> LastTie(n, strong))
                && (id in nodes ==>
                      && owned == old(owned)
                      && Recount(nodes[id], n, if strong then GivenBack(n.localStrong) else n.localStrong,
                                 if strong then n.localWeak else GivenBack(n.localWeak))
                      && (if LastOfKind(n, strong) && n.proc.Some? && (n.hasStrong || n.hasWeak) && n.workQueued.None?
                          then nodes[id].workQueued == Some(ProcList(n.proc.value))
                               && queues == Requeued(old(queues), id, None, ProcList(n.proc.value))
                          else nodes[id].workQueued == n.workQueued && queues == old(queues)))
    {
      hide Inv, Exec, Known, DecNode, TouchesOnly, Recount, LastTie, LastOfKind, Requeued;
      ghost var s, step := Value(), BinderRuns.GiveLocal(id, strong);
      InvNames(s);
      if id in s.nodes {
        LocalGiven(s, id, strong);
      } else {
        DecNodeMissing(s, id, strong, false);
      }
      LowerNode(id, strong, false);
      ExecMore(run, step);
      run := run + [step];
    }

    method BecomeManager(p: ProcId, ptr: nat, cookie: nat) returns (error: Option<Errno>)
      requires Valid() && p in procs
      modifies this
      ensures Valid() && run == old(run) + [BinderRuns.BecomeManager(p, ptr, cookie)]
      ensures error.Some? ==> Value() == old(Value())
      ensures error.None? <==>
                var c := old(contexts)[old(procs)[p].context];
                c.mgrNode.None? && (c.mgrUid.None? || c.mgrUid.value == old(procs)[p].euid)
      ensures error.None? ==>
                var c := contexts[procs[p].context];
                && c.mgrNode.Some? && c.mgrNode.value in nodes && IsContextManager(Value(), c.mgrNode.value)
                && nodes[c.mgrNode.value].proc == Some(p) && StrongNow(nodes[c.mgrNode.value])
    {
      hide Inv, Exec, SetContextManager;
      ghost var s, step := Value(), BinderRuns.BecomeManager(p, ptr, cookie);
      InvNames(s);
      RunInContext(run);
      ManagerIsSet(s, p, ptr, cookie);
      hide Known;
      error := SetManager(p, ptr, cookie);
      ExecMore(run, step);
      run := run + [step];
    }

    /** A thread leaves: its queue is gone, and no release is lost exactly when only settled nodes waited there. */
    method ReleaseThread(p: ProcId, t: Tid)
      requires Valid()
      modifies this
      ensures Valid() && run == old(run) + [ThreadExit(p, t)]
      ensures ThreadList(p, t) !in queues && refs == old(refs) && handles == old(handles)
      ensures old(Lossless(Value())) ==> (Lossless(Value()) <==> old(Quiet(Value(), ThreadExit(p, t))))
    {
      hide ThreadRelease, Lossless, Quiet, Leads;
      ghost var s := Value();
      ThreadReleaseShape(s, p, t);
      ThreadLeaves(run, s, p, t);
      DropThread(p, t);
      run := run + [ThreadExit(p, t)];
    }

    /** A process leaves, with its threads, nodes and handles; no release is lost. `tids`, `ids` and `descs`
        are the orders in which its tables are walked. */
    method LeaveProc(p: ProcId, tids: seq<Tid>, ids: seq<NodeId>, descs: seq<nat>)
      requires Valid() && All(Value(), p, tids, descs)
      requires forall n :: n in ids <==> n in nodes && nodes[n].proc == Some(p)
      modifies this
      ensures Valid() && run == old(run) + [ProcExit(p, tids, descs)]
      ensures p !in procs && (forall k {:trigger k in refs} :: k in refs ==> k.0 != p)
      ensures forall n {:trigger n in nodes} :: n in nodes ==> nodes[n].proc != Some(p)
      ensures old(Lossless(Value())) ==> Lossless(Value())
      ensures p in old(procs) ==>
                forall n {:trigger n in old(nodes)} :: n in old(nodes) && old(nodes)[n].proc == Some(p) ==>
                  && (n in nodes <==> old(nodes)[n].refs - {p} != {})
                  && (n in nodes ==> nodes[n].localStrong == 0 && nodes[n].localWeak == 0)
    {
      hide Inv, Exec, Known, ReleaseProc, Lossless, All;
      ghost var s, step := Value(), ProcExit(p, tids, descs);
      InvNames(s);
      NoneLeftOver(run);
      if p in s.procs {
        forall n | n in s.nodes && s.nodes[n].proc == Some(p)
          ensures var t := ReleaseProc(s, p, tids, descs);
                  && (n in t.nodes <==> s.nodes[n].refs - {p} != {})
                  && (n in t.nodes ==> t.nodes[n].localStrong == 0 && t.nodes[n].localWeak == 0)
        {
          LeftBehind(s, p, tids, descs, n);
        }
      }
      if Lossless(s) {
        ProcExitLossless(s, p, tids, descs);
      }
      ProcIsGone(s, p, tids, descs);
      DropProc(p, tids, ids, descs);
      ExecMore(run, step);
      run := run + [step];
      OthersRemain(Value(), p);
    }
  }

  // ---- the run goes on ----

  /** A run leads to a state. */
  ghost predicate Leads(run: seq<Step>, s: State) {
    && Exec(run).Some? && Exec(run).value.state == s
    && Inv(s) && Known(s)
  }

  lemma LeadsInv(run: seq<Step>, s: State)
    requires Leads(run, s)
    ensures Inv(s)
  {
  }

  lemma Updates(run: seq<Step>, s: State, p: ProcId, desc: nat, increment: bool, strong: bool)
    requires Leads(run, s)
    ensures Leads(run + [UpdateRef(p, desc, increment, strong)],
            OrSame(s, UpdateRefForHandle(s, p, desc, increment, strong)))
  {
    hide Exec, Inv, Known, UpdateRefForHandle;
    ExecMore(run, UpdateRef(p, desc, increment, strong));
  }

  lemma Acknowledges(run: seq<Step>, s: State, p: ProcId, ptr: nat, cookie: nat, strong: bool)
    requires Leads(run, s)
    ensures Leads(run + [Acknowledge(p, ptr, cookie, strong)], Done(s, p, ptr, cookie, strong))
  {
    hide Exec, Inv, Known, Done;
    ExecMore(run, Acknowledge(p, ptr, cookie, strong));
  }

  lemma ThreadLeaves(run: seq<Step>, s: State, p: ProcId, t: Tid)
    requires Leads(run, s)
    ensures Leads(run + [ThreadExit(p, t)], ThreadRelease(s, p, t))
    ensures Lossless(s) ==> (Lossless(ThreadRelease(s, p, t)) <==> Quiet(s, ThreadExit(p, t)))
  {
    hide Exec, Inv, Known, ThreadRelease, Lossless, Quiet;
    ExecMore(run, ThreadExit(p, t));
    if Lossless(s) {
      NextHeard(s, ThreadExit(p, t));
    }
  }

  // ---- what the steps leave behind ----

  lemma NewIsFresh(s: State)
    requires Inv(s)
    ensures s.nextId + 1 !in s.procs
  {
    InvParts(s);
    hide Inv;
  }

  lemma NodeIsMade(s: State, p: ProcId, ptr: nat, cookie: nat)
    requires Inv(s) && p in s.procs
    ensures var (t, id) := NewNode(s, p, ptr, cookie);
            id in t.nodes && t.nodes[id].proc == Some(p) && t.nodes[id].ptr == ptr && t.owned == s.owned[(p, ptr) := id]
  {
    if (p, ptr) in s.owned {
      assert s.owned[(p, ptr) := s.owned[(p, ptr)]] == s.owned;
    }
  }

  lemma RefIsUpdated(s: State, p: ProcId, desc: nat, increment: bool, strong: bool)
    requires Inv(s)
    ensures var u := UpdateRefForHandle(s, p, desc, increment, strong);
            && (u.Err? <==> (p, desc) !in s.refs || (strong && s.refs[(p, desc)].strong == 0))
            && (u.Ok? && increment ==>
                  u.value.refs == s.refs[(p, desc) := Recounted(s.refs[(p, desc)], strong)]
                      && u.value.handles == s.handles)
            && (u.Ok? && !increment ==>
                  var r := Uncounted(s.refs[(p, desc)], strong);
                  if r.strong + r.weak == 0
                      then u.value.refs == s.refs - {(p, desc)} && u.value.handles == s.handles - {(p, r.node)}
                  else u.value.refs == s.refs[(p, desc) := r] && u.value.handles == s.handles)
  {
    hide Inv, DecRef, IncRef, HandleSide;
    InvSides(s);
    if (p, desc) in s.refs && !(strong && s.refs[(p, desc)].strong == 0) {
      if increment {
        CountsUp(s, p, desc, strong);
        IncRefHandles(s, p, desc, strong, None);
      } else {
        DecRefResult(s, p, desc, strong);
      }
    }
  }

  /** A handle that has a strong count, or is to get a weak one, can be counted. */
  lemma CountsUp(s: State, p: ProcId, desc: nat, strong: bool)
    requires HandleSide(s) && (p, desc) in s.refs && (strong ==> s.refs[(p, desc)].strong > 0)
    ensures IncRef(s, p, desc, strong, None).Ok?
  {
    RefIsLive(s, p, desc);
  }

  lemma ReadTells(s: State, l: WorkList)
    requires Inv(s) && l in s.queues && s.queues[l] != []
    ensures var (t, out) := ReadFront(s, l);
            && t.queues == s.queues[l := s.queues[l][1..]]
            && (s.queues[l][0].NodeWork? ==>
                  var id := s.queues[l][0].node;
                  && id in s.nodes && s.nodes[id].proc == Some(l.proc)
                  && var n := s.nodes[id];
                     && Replay(View(n.hasWeak, n.hasStrong), out) == Some(View(WeakNow(n), StrongNow(n)))
                     && (id in t.nodes <==> WeakNow(n)))
  {
    InvParts(s);
    if s.queues[l][0].NodeWork? {
      FrontIsNamed(s, l);
      var id := s.queues[l][0].node;
      hide Inv, Queued, Commands, Replay, Told, StrongNow, WeakNow;
      ViewsOf(s, id);
      CommandsReplay(s.nodes[id]);
    }
  }

  lemma ManagerIsSet(s: State, p: ProcId, ptr: nat, cookie: nat)
    requires Inv(s) && Known(s) && InContext(s) && p in s.procs
             && ((p, ptr) in s.owned ==> s.owned[(p, ptr)] in s.nodes)
    ensures var c, u := s.procs[p].context, SetContextManager(s, p, ptr, cookie);
            && (u.Ok? <==>
                 s.contexts[c].mgrNode.None?
                     && (s.contexts[c].mgrUid.None? || s.contexts[c].mgrUid.value == s.procs[p].euid))
            && (u.Ok? ==>
                  var t := u.value;
                  && t.procs == s.procs && c in t.contexts && t.contexts[c].mgrNode.Some?
                  && var id := t.contexts[c].mgrNode.value;
                     id in t.nodes && t.nodes[id].context == c && t.nodes[id].proc == Some(p) && StrongNow(t.nodes[id]))
  {
    InvParts(s);
    hide Inv, InContext, Owners;
    OwnNode(s, p, ptr, cookie);
  }

  lemma ProcIsGone(s: State, p: ProcId, tids: seq<Tid>, descs: seq<nat>)
    requires Inv(s) && All(s, p, tids, descs)
    ensures p !in ReleaseProc(s, p, tids, descs).procs
  {
    hide Inv, All;
    ReleaseProcInv(s, p, tids, descs);
  }

  /** Handles and nodes belong to processes that exist. */
  lemma OthersRemain(s: State, p: ProcId)
    requires Inv(s) && p !in s.procs
    ensures (forall k {:trigger k in s.refs} :: k in s.refs ==> k.0 != p)
    ensures forall n {:trigger n in s.nodes} :: n in s.nodes ==> s.nodes[n].proc != Some(p)
  {
  }

  lemma Begun()
    ensures Exec([]).Some? && Exec([]).value.state == State(map[], map[], map[], map[], map[], map[], map[], 0)
  {
  }

  lemma StillThere(s: State, id: NodeId)
    requires id in s.nodes
    ensures id in DequeueNodeWork(s, id).nodes
  {
  }

  lemma NothingForgotten(s: State)
    ensures Forgotten(s, []) == s
  {
    assert Forgotten(s, []).nodes == s.nodes;
  }

  lemma ForgottenOne(s: State, work: seq<Work>, i: nat)
    requires i < |work|
    ensures var was, w := Forgotten(s, work[..i]), work[i];
            Forgotten(s, work[..i + 1]) ==
            if w.NodeWork? && w.node in was.nodes
                then was.(nodes := was.nodes[w.node := was.nodes[w.node].(workQueued := None)]) else was
  {
    assert work[..i + 1] == work[..i] + [work[i]];
    var was, w := Forgotten(s, work[..i]), work[i];
    var now := if w.NodeWork? && w.node in was.nodes then was.nodes[w.node := was.nodes[w.node].(workQueued := None)]
        else was.nodes;
    assert Forgotten(s, work[..i + 1]).nodes == now;
  }

  /** `node_release`. */
  function NodeReleased(s: State, id: NodeId): State {
    if id !in s.nodes then s
    else if s.nodes[id].refs == {} then s.(nodes := s.nodes - {id})
    else SetNode(s, id, Orphaned(s.nodes[id]))
  }

  /** A node whose owner is gone. */
  function Orphaned(n: Node): Node {
    n.(proc := None, localStrong := 0, localWeak := 0, workQueued := None)
  }

  /** The nodes of `p` in `ids` are released. */
  ghost function NodesReleasedOf(s: State, p: ProcId, ids: seq<NodeId>): State {
    s.(nodes := map n | n in s.nodes && !(n in ids && s.nodes[n].refs == {}) ::
         if n in ids then Orphaned(s.nodes[n]) else s.nodes[n])
  }

  lemma NoneReleased(s: State, p: ProcId)
    ensures NodesReleasedOf(s, p, []) == s
  {
    assert NodesReleasedOf(s, p, []).nodes == s.nodes;
  }

  lemma ReleasedOne(s: State, p: ProcId, ids: seq<NodeId>, i: nat)
    requires i < |ids|
    ensures NodeReleased(NodesReleasedOf(s, p, ids[..i]), ids[i]) == NodesReleasedOf(s, p, ids[..i + 1])
  {
    var some, id := ids[..i], ids[i];
    assert ids[..i + 1] == some + [id];
    ReleasedMore(s, p, some, ids[..i + 1], id);
  }

  lemma ReleasedMore(s: State, p: ProcId, some: seq<NodeId>, more: seq<NodeId>, id: NodeId)
    requires forall n :: n in more <==> n in some || n == id
    ensures NodeReleased(NodesReleasedOf(s, p, some), id) == NodesReleasedOf(s, p, more)
  {
    hide Orphaned;
    var u, v := NodesReleasedOf(s, p, some), NodesReleasedOf(s, p, more);
    if id !in u.nodes {
      assert u.nodes == v.nodes;
    } else if u.nodes[id].refs == {} {
      OrphanRefs(s.nodes[id]);
      assert u.nodes - {id} == v.nodes;
    } else {
      OrphanRefs(s.nodes[id]);
      assert u.nodes[id := Orphaned(u.nodes[id])] == v.nodes;
    }
  }

  lemma OrphanRefs(n: Node)
    ensures Orphaned(n).refs == n.refs && Orphaned(Orphaned(n)) == Orphaned(n)
  {
  }

  lemma AllReleased(s: State, p: ProcId, ids: seq<NodeId>)
    requires forall n :: n in ids <==> n in s.nodes && s.nodes[n].proc == Some(p)
    ensures NodesReleased(s, p) == NodesReleasedOf(s.(owned := map k | k in s.owned && k.0 != p :: s.owned[k]), p, ids)
  {
    var a, b := NodesReleased(s, p),
        NodesReleasedOf(s.(owned := map k | k in s.owned && k.0 != p :: s.owned[k]), p, ids);
    assert a.nodes.Keys == b.nodes.Keys;
    assert a.nodes == b.nodes;
  }

  lemma OwnersStay(s: State, p: ProcId, t: Tid)
    ensures var u := ThreadRelease(s, p, t);
            u.nodes.Keys == s.nodes.Keys && forall n {:trigger u.nodes[n]} ::
                n in s.nodes ==> u.nodes[n].proc == s.nodes[n].proc
  {
  }
}
