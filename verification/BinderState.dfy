/** The state and the reference rules of the binder driver
    (`crates/aim-binder-driver/src/state.rs`), on values.

    The per-process tables are maps keyed by the process and the entry: `refs` is `refs_by_desc`,
    `handles` is `refs_by_node`, `owned` is the node table by user pointer, and `queues` holds the
    process and thread work queues. Counters are unbounded. */
module BinderState {
  import opened Common

  type ProcId = nat
  type NodeId = nat
  type Tid = int

  datatype Work = NodeWork(node: NodeId) | OtherWork(tag: int)

  datatype WorkList = ProcList(proc: ProcId) | ThreadList(proc: ProcId, tid: Tid)

  datatype Ref = Ref(node: NodeId, strong: nat, weak: nat)

  datatype Node = Node(
    proc: Option<ProcId>,
    context: nat,
    ptr: nat,
    cookie: nat,
    internalStrong: nat,
    localStrong: nat,
    localWeak: nat,
    refs: set<ProcId>,
    hasStrong: bool,
    pendingStrong: bool,
    hasWeak: bool,
    pendingWeak: bool,
    workQueued: Option<WorkList>)

  datatype Proc = Proc(context: nat, euid: nat)
  datatype Context = Context(mgrNode: Option<NodeId>, mgrUid: Option<nat>)

  datatype State = State(
    contexts: map<nat, Context>,
    procs: map<ProcId, Proc>,
    owned: map<(ProcId, nat), NodeId>,
    refs: map<(ProcId, nat), Ref>,
    handles: map<(ProcId, NodeId), nat>,
    queues: map<WorkList, seq<Work>>,
    nodes: map<NodeId, Node>,
    nextId: nat)

  datatype Errno = EINVAL | ESRCH | EBUSY | EPERM
  datatype Result<+T> = Ok(value: T) | Err(error: Errno)

  function SatSub(n: nat): nat {
    if n == 0 then 0 else n - 1
  }

  // ---- work queues ----

  function RemoveFirst(q: seq<Work>, w: Work): seq<Work> {
    if q == [] then []
    else if q[0] == w then q[1..]
    else [q[0]] + RemoveFirst(q[1..], w)
  }

  /** Appends to a list that exists; otherwise nothing happens. */
  function Enqueue(s: State, l: WorkList, w: Work): State {
    if l in s.queues then s.(queues := s.queues[l := s.queues[l] + [w]]) else s
  }

  function SetNode(s: State, id: NodeId, n: Node): State {
    s.(nodes := s.nodes[id := n])
  }

  /** `dequeue_node_work`. */
  function DequeueNodeWork(s: State, id: NodeId): State {
    if id !in s.nodes || s.nodes[id].workQueued.None? then s
    else
      var l := s.nodes[id].workQueued.value;
      var t := SetNode(s, id, s.nodes[id].(workQueued := None));
      if l in t.queues then t.(queues := t.queues[l := RemoveFirst(t.queues[l], NodeWork(id))]) else t
  }

  // ---- nodes ----

  function IsContextManager(s: State, id: NodeId): bool {
    id in s.nodes && s.nodes[id].context in s.contexts && s.contexts[s.nodes[id].context].mgrNode == Some(id)
  }

  /** `new_node`: the node of `ptr`, made if there is none. */
  function NewNode(s: State, p: ProcId, ptr: nat, cookie: nat): (State, NodeId)
    requires p in s.procs
  {
    if (p, ptr) in s.owned then (s, s.owned[(p, ptr)])
    else
      var id := s.nextId + 1;
      var node := Node(Some(p), s.procs[p].context, ptr, cookie, 0, 0, 0, {}, false, false, false, false, None);
      (s.(nextId := id, nodes := s.nodes[id := node], owned := s.owned[(p, ptr) := id]), id)
  }

  /** Puts node work on a list and records where. */
  function QueueNodeWork(s: State, id: NodeId, l: WorkList): State
    requires id in s.nodes
  {
    Enqueue(SetNode(s, id, s.nodes[id].(workQueued := Some(l))), l, NodeWork(id))
  }

  /** `inc_node`; on an error nothing has changed. */
  function IncNode(s: State, id: NodeId, strong: bool, internal: bool, target: Option<(ProcId, Tid)>): Result<State> {
    if id !in s.nodes then Err(EINVAL)
    else
      var n := s.nodes[id];
      if strong then
        if internal && target.None? && n.internalStrong == 0
           && !(n.proc.Some? && IsContextManager(s, id) && n.hasStrong) then Err(EINVAL)
        else
          var t := SetNode(s, id, if internal then n.(internalStrong := n.internalStrong + 1)
                                  else n.(localStrong := n.localStrong + 1));
          if !n.hasStrong && target.Some?
          then Ok(QueueNodeWork(DequeueNodeWork(t, id), id, ThreadList(target.value.0, target.value.1)))
          else Ok(t)
      else
        var t := if internal then s else SetNode(s, id, n.(localWeak := n.localWeak + 1));
        if !n.hasWeak && n.workQueued.None? && target.Some?
        then Ok(QueueNodeWork(t, id, ThreadList(target.value.0, target.value.1)))
        else Ok(t)
  }

  /** The node is dropped; an owned one first leaves its queue and its owner's table. */
  function DropNode(s: State, id: NodeId): State
    requires id in s.nodes
  {
    var n := s.nodes[id];
    var t := if n.proc.Some? then
               var u := DequeueNodeWork(s, id);
               u.(owned := u.owned - {(n.proc.value, n.ptr)})
             else s;
    t.(nodes := t.nodes - {id})
  }

  /** `dec_node` once the counter is lowered and nothing of that kind is left. */
  function LastReferenceGone(s: State, id: NodeId): State
    requires id in s.nodes
  {
    var n := s.nodes[id];
    if n.proc.Some? && (n.hasStrong || n.hasWeak) then
      if n.workQueued.None? then QueueNodeWork(s, id, ProcList(n.proc.value)) else s
    else if n.refs == {} && n.localStrong == 0 && n.localWeak == 0 then DropNode(s, id)
    else s
  }

  /** The counter `dec_node` lowers. */
  function Lowered(n: Node, strong: bool, internal: bool): Node {
    if strong && internal then n.(internalStrong := SatSub(n.internalStrong))
    else if strong then n.(localStrong := SatSub(n.localStrong))
    else if internal then n
    else n.(localWeak := SatSub(n.localWeak))
  }

  /** `dec_node`. */
  function DecNode(s: State, id: NodeId, strong: bool, internal: bool): State {
    if id !in s.nodes then s
    else
      var n := Lowered(s.nodes[id], strong, internal);
      var t := SetNode(s, id, n);
      if (if strong then n.localStrong != 0 || n.internalStrong != 0 else n.localWeak != 0 || n.refs != {}) then t
      else LastReferenceGone(t, id)
  }

  // ---- handles ----

  /** The lowest free descriptor from `first` on: no lower one is free, and it is not taken. */
  ghost predicate IsLowestFree(s: State, p: ProcId, first: nat, desc: nat) {
    && first <= desc && (p, desc) !in s.refs
    && forall d :: first <= d < desc ==> (p, d) in s.refs
  }

  /** The entry `inc_ref_for_node` makes before it counts. */
  function AddRef(s: State, p: ProcId, node: NodeId, desc: nat): State {
    var t := s.(refs := s.refs[(p, desc) := Ref(node, 0, 0)], handles := s.handles[(p, node) := desc]);
    if node in t.nodes then SetNode(t, node, t.nodes[node].(refs := t.nodes[node].refs + {p})) else t
  }

  /** `inc_ref`. */
  function IncRef(s: State, p: ProcId, desc: nat, strong: bool, target: Option<(ProcId, Tid)>): Result<State>
    requires (p, desc) in s.refs
  {
    var r := s.refs[(p, desc)];
    var counted := if (if strong then r.strong else r.weak) == 0 then IncNode(s, r.node, strong, true, target)
        else Ok(s);
    if counted.Err? then counted
    else
      var t := counted.value;
      Ok(t.(refs := t.refs[(p, desc) := if strong then r.(strong := r.strong + 1) else r.(weak := r.weak + 1)]))
  }

  /** `cleanup_ref` up to the node's last look: the entry, its strong count and the back-reference go. */
  function Detached(s: State, p: ProcId, desc: nat): State
    requires (p, desc) in s.refs
  {
    var r := s.refs[(p, desc)];
    var s1 := s.(refs := s.refs - {(p, desc)}, handles := s.handles - {(p, r.node)});
    var s2 := if r.strong != 0 then DecNode(s1, r.node, true, true) else s1;
    if r.node in s2.nodes then SetNode(s2, r.node, s2.nodes[r.node].(refs := s2.nodes[r.node].refs - {p})) else s2
  }

  /** `cleanup_ref`. */
  function CleanupRef(s: State, p: ProcId, desc: nat): State {
    if (p, desc) !in s.refs then s
    else DecNode(Detached(s, p, desc), s.refs[(p, desc)].node, false, true)
  }

  /** `dec_ref`. */
  function DecRef(s: State, p: ProcId, desc: nat, strong: bool): Result<State> {
    if (p, desc) !in s.refs then Err(EINVAL)
    else
      var r := s.refs[(p, desc)];
      if (if strong then r.strong else r.weak) == 0 then Ok(s)
      else
        var r' := if strong then r.(strong := r.strong - 1) else r.(weak := r.weak - 1);
        var t := s.(refs := s.refs[(p, desc) := r']);
        var u := if strong && r'.strong == 0 then DecNode(t, r.node, true, true) else t;
        Ok(if r'.strong == 0 && r'.weak == 0 then CleanupRef(u, p, desc) else u)
  }

  /** `update_ref_for_handle`. */
  function UpdateRefForHandle(s: State, p: ProcId, desc: nat, increment: bool, strong: bool): Result<State> {
    if (p, desc) !in s.refs || (strong && s.refs[(p, desc)].strong == 0) then Err(EINVAL)
    else if increment then IncRef(s, p, desc, strong, None)
    else DecRef(s, p, desc, strong)
  }

  /** `inc_ref_for_node`: the state is returned with an error too, since an entry made for a node that
      does not exist stays behind. */
  function IncRefForNode(s: State, p: ProcId, node: NodeId, strong: bool, target: Option<(ProcId, Tid)>,
      free: nat): (State, Result<nat>)
    requires (p, node) in s.handles ==> (p, s.handles[(p, node)]) in s.refs
  {
    if p !in s.procs then (s, Err(ESRCH))
    else if (p, node) in s.handles then
      var desc := s.handles[(p, node)];
      var r := IncRef(s, p, desc, strong, target);
      if r.Ok? then (r.value, Ok(desc)) else (s, Err(r.error))
    else
      var t := AddRef(s, p, node, free);
      if node !in s.nodes then (t, Err(EINVAL))
      else
        var r := IncRef(t, p, free, strong, target);
        if r.Ok? then (r.value, Ok(free)) else (CleanupRef(t, p, free), Err(r.error))
  }

  // ---- what the owner is told ----

  datatype Command = INCREFS | ACQUIRE | RELEASE | DECREFS

  function StrongNow(n: Node): bool {
    n.internalStrong != 0 || n.localStrong != 0
  }

  function WeakNow(n: Node): bool {
    n.refs != {} || n.localWeak != 0 || StrongNow(n)
  }

  /** The node after its work is read. */
  function Told(n: Node): Node {
    var strong, weak := StrongNow(n), WeakNow(n);
    var a := if weak && !n.hasWeak then n.(pendingWeak := true, localWeak := n.localWeak + 1) else n;
    var b := if strong && !n.hasStrong then a.(pendingStrong := true, localStrong := a.localStrong + 1) else a;
    b.(hasStrong := strong, hasWeak := weak, workQueued := None)
  }

  function Commands(n: Node): seq<Command> {
    var strong, weak := StrongNow(n), WeakNow(n);
    (if weak && !n.hasWeak then [INCREFS] else [])
    + (if strong && !n.hasStrong then [ACQUIRE] else [])
    + (if !strong && n.hasStrong then [RELEASE] else [])
    + (if !weak && n.hasWeak then [DECREFS] else [])
  }

  /** `node_work`: process `p` reads the work of a node. */
  function NodeWorkRead(s: State, p: ProcId, id: NodeId): (State, seq<Command>) {
    if id !in s.nodes then (s, [])
    else
      var n := s.nodes[id];
      if WeakNow(n) then (SetNode(s, id, Told(n)), Commands(n))
      else (s.(owned := s.owned - {(p, n.ptr)}, nodes := s.nodes - {id}), Commands(n))
  }

  /** A read takes the front of a list, reporting it if it is node work. */
  function ReadFront(s: State, l: WorkList): (State, seq<Command>)
    requires l in s.queues && s.queues[l] != []
  {
    var w := s.queues[l][0];
    var t := s.(queues := s.queues[l := s.queues[l][1..]]);
    if w.NodeWork? then NodeWorkRead(t, l.proc, w.node) else (t, [])
  }

  /** `BC_INCREFS_DONE` and `BC_ACQUIRE_DONE`: the owner has taken the reference it was told of. */
  function Done(s: State, p: ProcId, ptr: nat, cookie: nat, strong: bool): State {
    if (p, ptr) !in s.owned || s.owned[(p, ptr)] !in s.nodes then s
    else
      var id := s.owned[(p, ptr)];
      var n := s.nodes[id];
      if n.cookie != cookie || !(if strong then n.pendingStrong else n.pendingWeak) then s
      else DecNode(SetNode(s, id, if strong then n.(pendingStrong := false) else n.(pendingWeak := false)), id, strong,
          false)
  }

  /** `set_context_manager`. */
  function SetContextManager(s: State, p: ProcId, ptr: nat, cookie: nat): Result<State>
    requires p in s.procs && s.procs[p].context in s.contexts
    requires (p, ptr) in s.owned ==> s.owned[(p, ptr)] in s.nodes
  {
    var c := s.procs[p].context;
    var context := s.contexts[c];
    if context.mgrNode.Some? then Err(EBUSY)
    else if context.mgrUid.Some? && context.mgrUid.value != s.procs[p].euid then Err(EPERM)
    else
      var (t, id) := NewNode(s, p, ptr, cookie);
      var n := t.nodes[id];
      var u := SetNode(t, id,
          n.(localWeak := n.localWeak + 1, localStrong := n.localStrong + 1, hasStrong := true, hasWeak := true));
      Ok(u.(contexts := u.contexts[c := Context(Some(id), Some(s.procs[p].euid))]))
  }

  // ---- processes and threads come and go ----

  /** `new_proc`. */
  function NewProc(s: State, context: nat, euid: nat): (State, ProcId) {
    var id := s.nextId + 1;
    var contexts := if context in s.contexts then s.contexts else s.contexts[context := Context(None, None)];
    (s.(nextId := id, contexts := contexts, procs := s.procs[id := Proc(context, euid)],
        queues := s.queues[ProcList(id) := []]), id)
  }

  /** `thread_or_create`. */
  function NewThread(s: State, p: ProcId, t: Tid): State {
    if p in s.procs && ThreadList(p, t) !in s.queues then s.(queues := s.queues[ThreadList(p, t) := []]) else s
  }

  /** The node part of `release_work`: dropped node work is queued nowhere. */
  function Forgotten(s: State, q: seq<Work>): State {
    s.(nodes := map n | n in s.nodes :: if NodeWork(n) in q then s.nodes[n].(workQueued := None) else s.nodes[n])
  }

  /** The node part of `thread_release`. */
  function ThreadRelease(s: State, p: ProcId, t: Tid): State {
    var l := ThreadList(p, t);
    if l !in s.queues then s else Forgotten(s.(queues := s.queues - {l}), s.queues[l])
  }

  function ThreadsReleased(s: State, p: ProcId, tids: seq<Tid>): State {
    if tids == [] then s else ThreadRelease(ThreadsReleased(s, p, tids[..|tids| - 1]), p, tids[|tids| - 1])
  }

  /** `node_release` of every node of `p`: nodes nobody holds go, the others lose their owner. */
  function NodesReleased(s: State, p: ProcId): State {
    s.(owned := map k | k in s.owned && k.0 != p :: s.owned[k],
       nodes := map n | n in s.nodes && !(s.nodes[n].proc == Some(p) && s.nodes[n].refs == {}) ::
         if s.nodes[n].proc == Some(p)
         then s.nodes[n].(proc := None, localStrong := 0, localWeak := 0, workQueued := None)
         else s.nodes[n])
  }

  function RefsReleased(s: State, p: ProcId, descs: seq<nat>): State {
    if descs == [] then s else CleanupRef(RefsReleased(s, p, descs[..|descs| - 1]), p, descs[|descs| - 1])
  }

  /** The context of `p` loses its manager if that was a node of `p`. */
  function ManagerReleased(s: State, p: ProcId): State
    requires p in s.procs
  {
    var c := s.procs[p].context;
    if c in s.contexts && s.contexts[c].mgrNode.Some? && s.contexts[c].mgrNode.value in s.nodes
       && s.nodes[s.contexts[c].mgrNode.value].proc == Some(p)
    then s.(contexts := s.contexts[c := s.contexts[c].(mgrNode := None)])
    else s
  }

  /** The reference part of `release_proc`. `tids` and `descs` are the orders its loops take. */
  function ReleaseProc(s: State, p: ProcId, tids: seq<Tid>, descs: seq<nat>): State {
    if p !in s.procs then s
    else
      var a := ThreadsReleased(ManagerReleased(s, p), p, tids);
      var b := RefsReleased(NodesReleased(a, p), p, descs);
      var c := if ProcList(p) in b.queues then Forgotten(b, b.queues[ProcList(p)]) else b;
      c.(queues := c.queues - {ProcList(p)}, procs := c.procs - {p})
  }
}
