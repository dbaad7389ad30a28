/** The invariant of every reachable state of the workers, and what it buys. */
module WorkersInvariant {
  import opened Text
  import opened Workers

  /** The entry id of worker x serves a connection that x still holds, at the same descriptor. */
  ghost predicate Serves(x: Worker, id: Id) {
    && id in x.proxies
    && x.proxies[id].reverseFd in x.clients
    && x.clients[x.proxies[id].reverseFd] == Client(id, x.proxies[id].origin)
  }

  ghost predicate ClientsOk(s: State, w: nat)
    requires w < |s.workers|
  {
    var x := s.workers[w];
    forall fd :: fd in x.clients ==>
      var c := x.clients[fd];
      && fd in s.kernel && s.kernel[fd] == ClientOf(c.conn)
      && c.conn < |s.births| && s.births[c.conn] == Birth(w, fd)
      && c.id in s.issued && s.issued[c.id] == c.conn
  }

  ghost predicate ProxiesOk(s: State, w: nat)
    requires w < |s.workers|
  {
    var x := s.workers[w];
    forall id :: id in x.proxies ==>
      var u := x.proxies[id];
      && id in s.issued && s.issued[id] == u.origin
      && u.origin < |s.births| && s.births[u.origin] == Birth(w, u.reverseFd)
      && (u.fd.Some? ==> u.fd.value in s.kernel && s.kernel[u.fd.value] == UpstreamOf(w, id))
      && (u.connected ==> u.fd.Some?)
  }

  ghost predicate CallerOk(x: Worker, id: Id, caller: Caller) {
    match caller
    case Handler(fd) => id in x.proxies && fd == x.proxies[id].reverseFd
    case Timer(todo) => forall i :: i in todo ==> Serves(x, i)
  }

  ghost predicate PcOk(s: State, w: nat)
    requires w < |s.workers|
  {
    var x := s.workers[w];
    match x.pc
    case NotStarted => x.listener == None
    case Idle => true
    case Accepting => s.lock == Some(w)
    case Accepted(fd, conn) => s.lock == Some(w) && Unnumbered(s, w, fd, conn)
    case Counting(fd, conn, seen) => s.lock == Some(w) && Unnumbered(s, w, fd, conn) && seen == s.maxId
    case Proxying(id, stage, caller) =>
      Serves(x, id) && CallerOk(x, id, caller) && (stage == Relaying ==> x.proxies[id].connected)
    case Closing(fd) => fd in x.clients
    case Pruning => true
    case Sweeping(todo) => forall i :: i in todo ==> Serves(x, i)
  }

  ghost predicate Unnumbered(s: State, w: nat, fd: Fd, conn: Conn) {
    && fd in s.kernel && s.kernel[fd] == ClientOf(conn)
    && conn < |s.births| && s.births[conn] == Birth(w, fd)
    && forall id :: id in s.issued ==> s.issued[id] != conn
  }

  ghost predicate WorkerOk(s: State, w: nat)
    requires w < |s.workers|
  {
    var x := s.workers[w];
    && (x.listener.Some? ==> x.listener.value in s.kernel && s.kernel[x.listener.value] == Listener(w))
    && x.epoll == x.clients.Keys + (if x.listener.Some? then {x.listener.value} else {})
    && ClientsOk(s, w) && ProxiesOk(s, w) && PcOk(s, w)
  }

  /** Worker x answers for descriptor fd as its owner says. */
  ghost predicate Accounted(s: State, fd: Fd)
    requires fd in s.kernel
  {
    match s.kernel[fd]
    case Other => true
    case Listener(w) => w < |s.workers| && s.workers[w].listener == Some(fd)
    case ClientOf(conn) =>
      && conn < |s.births| && s.births[conn].fd == fd && s.births[conn].worker < |s.workers|
      && var x := s.workers[s.births[conn].worker];
         || (fd in x.clients && x.clients[fd].conn == conn)
         || x.pc == Accepted(fd, conn)
         || (x.pc.Counting? && x.pc.fd == fd && x.pc.conn == conn)
    case UpstreamOf(w, id) =>
      w < |s.workers| && id in s.workers[w].proxies && s.workers[w].proxies[id].fd == Some(fd)
  }

  ghost predicate IssuedOk(s: State) {
    && (forall id :: id in s.issued ==> 1 <= id <= s.maxId && s.issued[id] < |s.births|)
    && (forall id, id' :: id in s.issued && id' in s.issued && id != id' ==> s.issued[id] != s.issued[id'])
  }

  ghost predicate Inv(s: State) {
    && (forall w :: 0 <= w < |s.workers| ==> WorkerOk(s, w))
    && (forall fd :: fd in s.kernel ==> Accounted(s, fd))
    && IssuedOk(s)
    && (forall d :: d in s.log ==> d.target == Some(ClientOf(d.origin)))
  }

  /** The worker a descriptor belongs to. */
  ghost predicate BelongsTo(s: State, fd: Fd, w: nat)
    requires fd in s.kernel
  {
    match s.kernel[fd]
    case Other => false
    case Listener(v) => v == w
    case ClientOf(conn) => conn < |s.births| && s.births[conn].worker == w
    case UpstreamOf(v, id) => v == w
  }

  /** What a step of one worker leaves alone, as far as worker v is concerned. */
  ghost predicate Untouched(s: State, s': State, v: nat) {
    && v < |s.workers| == |s'.workers| && s'.workers[v] == s.workers[v]
    && (forall fd :: fd in s.kernel && BelongsTo(s, fd, v) ==> fd in s'.kernel && s'.kernel[fd] == s.kernel[fd])
    && s.births <= s'.births
    && (forall id :: id in s.issued ==> id in s'.issued && s'.issued[id] == s.issued[id])
    && (s.lock == Some(v) ==> s'.lock == s.lock && s'.maxId == s.maxId && s'.issued == s.issued)
  }

  lemma UntouchedStaysOk(s: State, s': State, v: nat)
    requires Untouched(s, s', v) && WorkerOk(s, v)
    ensures WorkerOk(s', v)
  {
  }

  /** Steps that leave the worker's proxy table alone. */
  predicate OnConnections(step: Step) {
    step.Setup? || step.Lock? || step.Accept? || step.ReadCounter? || step.Register? || step.Unlock? || step.Cleanup?
    || step.OpenOther? || step.CloseOther?
  }

  ghost predicate TablesOk(s: State, w: nat)
    requires w < |s.workers|
  {
    var x := s.workers[w];
    && (x.listener.Some? ==> x.listener.value in s.kernel && s.kernel[x.listener.value] == Listener(w))
    && x.epoll == x.clients.Keys + (if x.listener.Some? then {x.listener.value} else {})
    && ClientsOk(s, w)
  }

  /** Histories only grow. */
  ghost predicate Grows(s: State, s': State) {
    && s.births <= s'.births
    && forall id :: id in s.issued ==> id in s'.issued && s'.issued[id] == s.issued[id]
  }

  /** A step on connections leaves the worker's proxy table and its sockets alone. */
  lemma {:induction false} ConnectionStepFrame(s: State, w: nat, step: Step)
    requires Enabled(s, w, step) && WorkerOk(s, w) && IssuedOk(s) && OnConnections(step)
    ensures var s' := Apply(s, w, step);
      && Grows(s, s') && s'.workers[w].proxies == s.workers[w].proxies
      && forall fd :: fd in s.kernel && s.kernel[fd].UpstreamOf? ==> fd in s'.kernel && s'.kernel[fd] == s.kernel[fd]
  {
  }

  /** A step on proxies leaves the connection table and everything but its sockets alone. */
  lemma {:induction false} ProxyStepFrame(s: State, w: nat, step: Step)
    requires Enabled(s, w, step) && WorkerOk(s, w) && !OnConnections(step)
    ensures var (s', x, x') := (Apply(s, w, step), s.workers[w], Apply(s, w, step).workers[w]);
      && s'.births == s.births && s'.issued == s.issued && s'.lock == s.lock && s'.maxId == s.maxId
      && |s'.workers| == |s.workers|
      && x'.listener == x.listener && x'.clients == x.clients && x'.epoll == x.epoll
      && forall fd :: fd in s.kernel && !s.kernel[fd].UpstreamOf? ==> fd in s'.kernel && s'.kernel[fd] == s.kernel[fd]
  {
  }

  lemma {:induction false} OthersUntouched(s: State, w: nat, step: Step, v: nat)
    requires Enabled(s, w, step) && WorkerOk(s, w) && v < |s.workers| && WorkerOk(s, v) && v != w && IssuedOk(s)
    ensures Untouched(s, Apply(s, w, step), v)
  {
    if OnConnections(step) {
      OthersUntouchedConnections(s, w, step, v);
    } else {
      ProxyStepFrame(s, w, step);
    }
  }

  lemma {:induction false} OthersUntouchedConnections(s: State, w: nat, step: Step, v: nat)
    requires Enabled(s, w, step) && WorkerOk(s, w) && v < |s.workers| && v != w && IssuedOk(s) && OnConnections(step)
    ensures Untouched(s, Apply(s, w, step), v)
  {
  }

  lemma {:induction false} OwnTablesStayOk(s: State, w: nat, step: Step)
    requires Enabled(s, w, step) && WorkerOk(s, w) && !OnConnections(step)
    ensures TablesOk(Apply(s, w, step), w)
  {
    ProxyStepFrame(s, w, step);
  }

  lemma {:induction false} OwnTablesStayOkConnections(s: State, w: nat, step: Step)
    requires Enabled(s, w, step) && WorkerOk(s, w) && IssuedOk(s) && OnConnections(step)
    ensures TablesOk(Apply(s, w, step), w)
  {
    match step
    case Accept(fd) => AcceptTables(s, w, step);
    case Register => RegisterTables(s, w, step);
    case Cleanup(fd) => CleanupTables(s, w, step);
    case _ =>
  }

  lemma {:induction false} AcceptTables(s: State, w: nat, step: Step)
    requires Enabled(s, w, step) && WorkerOk(s, w) && step.Accept?
    ensures TablesOk(Apply(s, w, step), w)
  {
  }

  lemma {:induction false} RegisterTables(s: State, w: nat, step: Step)
    requires Enabled(s, w, step) && WorkerOk(s, w) && IssuedOk(s) && step.Register?
    ensures TablesOk(Apply(s, w, step), w)
  {
    var pc := s.workers[w].pc;
    assert pc.fd !in s.workers[w].clients;
  }

  lemma {:induction false} CleanupTables(s: State, w: nat, step: Step)
    requires Enabled(s, w, step) && WorkerOk(s, w) && step.Cleanup?
    ensures TablesOk(Apply(s, w, step), w)
  {
  }

  lemma {:induction false} OwnProxiesStayOk(s: State, w: nat, step: Step)
    requires Enabled(s, w, step) && WorkerOk(s, w) && !OnConnections(step)
    ensures ProxiesOk(Apply(s, w, step), w)
  {
    match step
    case Request(fd) => RequestProxies(s, w, step);
    case CloseOld => SocketProxies(s, w, step);
    case OpenNew(sock) => SocketProxies(s, w, step);
    case Connect(ok) => SocketProxies(s, w, step);
    case Prune(id) => PruneProxies(s, w, step);
    case _ =>
  }

  lemma {:induction false} RequestProxies(s: State, w: nat, step: Step)
    requires Enabled(s, w, step) && WorkerOk(s, w) && step.Request?
    ensures ProxiesOk(Apply(s, w, step), w)
  {
  }

  lemma {:induction false} SocketProxies(s: State, w: nat, step: Step)
    requires Enabled(s, w, step) && WorkerOk(s, w) && (step.CloseOld? || step.OpenNew? || step.Connect?)
    ensures ProxiesOk(Apply(s, w, step), w)
  {
  }

  lemma {:induction false} PruneProxies(s: State, w: nat, step: Step)
    requires Enabled(s, w, step) && WorkerOk(s, w) && step.Prune?
    ensures ProxiesOk(Apply(s, w, step), w)
  {
  }

  lemma {:induction false} OwnPcStaysOk(s: State, w: nat, step: Step)
    requires Enabled(s, w, step) && WorkerOk(s, w) && !OnConnections(step)
    ensures PcOk(Apply(s, w, step), w)
  {
    ProxyStepFrame(s, w, step);
  }

  lemma {:induction false} OwnPcStaysOkConnections(s: State, w: nat, step: Step)
    requires Enabled(s, w, step) && WorkerOk(s, w) && IssuedOk(s) && OnConnections(step)
    ensures PcOk(Apply(s, w, step), w)
  {
  }

  lemma {:induction false} OwnStaysOk(s: State, w: nat, step: Step)
    requires Inv(s) && Enabled(s, w, step)
    ensures WorkerOk(Apply(s, w, step), w)
  {
    if OnConnections(step) {
      ConnectionStepFrame(s, w, step);
      OwnTablesStayOkConnections(s, w, step);
      OwnPcStaysOkConnections(s, w, step);
    } else {
      OwnProxiesStayOk(s, w, step);
      OwnTablesStayOk(s, w, step);
      OwnPcStaysOk(s, w, step);
    }
  }

  lemma {:induction false} StaysAccounted(s: State, w: nat, step: Step, fd: Fd)
    requires Enabled(s, w, step) && WorkerOk(s, w) && !OnConnections(step)
    requires fd in s.kernel ==> Accounted(s, fd)
    requires fd in Apply(s, w, step).kernel
    ensures Accounted(Apply(s, w, step), fd)
  {
    match step
    case CloseOld => SocketAccounted(s, w, step, fd);
    case OpenNew(sock) => SocketAccounted(s, w, step, fd);
    case Connect(ok) => SocketAccounted(s, w, step, fd);
    case Prune(id) => PruneAccounted(s, w, step, fd);
    case _ =>
  }

  lemma {:induction false} SocketAccounted(s: State, w: nat, step: Step, fd: Fd)
    requires Enabled(s, w, step) && WorkerOk(s, w) && (step.CloseOld? || step.OpenNew? || step.Connect?)
    requires fd in s.kernel ==> Accounted(s, fd)
    requires fd in Apply(s, w, step).kernel
    ensures Accounted(Apply(s, w, step), fd)
  {
  }

  lemma {:induction false} PruneAccounted(s: State, w: nat, step: Step, fd: Fd)
    requires Enabled(s, w, step) && WorkerOk(s, w) && step.Prune?
    requires fd in s.kernel ==> Accounted(s, fd)
    requires fd in Apply(s, w, step).kernel
    ensures Accounted(Apply(s, w, step), fd)
  {
  }

  lemma {:induction false} StaysAccountedConnections(s: State, w: nat, step: Step, fd: Fd)
    requires Enabled(s, w, step) && WorkerOk(s, w) && OnConnections(step)
    requires fd in s.kernel ==> Accounted(s, fd)
    requires fd in Apply(s, w, step).kernel
    ensures Accounted(Apply(s, w, step), fd)
  {
  }

  lemma {:induction false} IdsStayOk(s: State, w: nat, step: Step)
    requires Inv(s) && Enabled(s, w, step)
    ensures IssuedOk(Apply(s, w, step))
  {
    assert WorkerOk(s, w);
  }

  lemma {:induction false} StepKeepsInv(s: State, w: nat, step: Step)
    requires Inv(s) && Enabled(s, w, step)
    ensures Inv(Apply(s, w, step))
  {
    var s' := Apply(s, w, step);
    forall v | 0 <= v < |s'.workers| ensures WorkerOk(s', v) {
      if v == w {
        OwnStaysOk(s, w, step);
      } else {
        OthersUntouched(s, w, step, v);
        UntouchedStaysOk(s, s', v);
      }
    }
    forall fd | fd in s'.kernel ensures Accounted(s', fd) {
      if OnConnections(step) {
        StaysAccountedConnections(s, w, step, fd);
      } else {
        StaysAccounted(s, w, step, fd);
      }
    }
    IdsStayOk(s, w, step);
    DeliveriesStayOk(s, w, step);
  }

  lemma {:induction false} DeliveriesStayOk(s: State, w: nat, step: Step)
    requires Inv(s) && Enabled(s, w, step)
    ensures forall d :: d in Apply(s, w, step).log ==> d.target == Some(ClientOf(d.origin))
  {
    assert WorkerOk(s, w);
  }
}
