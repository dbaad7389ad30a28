/** Safety over every interleaving of the workers and every reuse of descriptor numbers. */
module WorkersTheorems {
  import opened Text
  import opened Workers
  import opened WorkersInvariant

  lemma {:induction false} RunsKeepInv(s: State, run: seq<Move>, r: State)
    requires Inv(s) && Runs(s, run, r)
    ensures Inv(r)
    decreases |run|
  {
    if run != [] {
      StepKeepsInv(s, run[0].worker, run[0].step);
      RunsKeepInv(Apply(s, run[0].worker, run[0].step), run[1..], r);
    }
  }

  lemma {:induction false} InitInv(s: State)
    requires Init(s)
    ensures Inv(s)
  {
    forall w | 0 <= w < |s.workers| ensures WorkerOk(s, w) {
      assert s.workers[w] == Worker(None, map[], {}, map[], NotStarted);
    }
  }

  ghost predicate Reachable(r: State) {
    exists s, run :: Init(s) && Runs(s, run, r)
  }

  lemma {:induction false} ReachableInv(r: State)
    requires Reachable(r)
    ensures Inv(r)
  {
    var s, run :| Init(s) && Runs(s, run, r);
    InitInv(s);
    RunsKeepInv(s, run, r);
  }

  /** Every block ever forwarded went to the very connection whose request opened the
      upstream connection it came from. */
  lemma {:induction false} DeliveriesAreSafe(r: State, i: nat)
    requires Reachable(r) && i < |r.log|
    ensures r.log[i].target == Some(ClientOf(r.log[i].origin))
  {
    ReachableInv(r);
    assert r.log[i] in r.log;
  }

  /** What a run forwards: for each block, whose request opened the upstream connection, and
      what the target descriptor was at that moment. */
  ghost function Forwarded(s: State, run: seq<Move>): seq<Delivery>
    decreases |run|
  {
    if run == [] || !Enabled(s, run[0].worker, run[0].step) then [] else
    var (x, rest) := (s.workers[run[0].worker], Forwarded(Apply(s, run[0].worker, run[0].step), run[1..]));
    if run[0].step == Forward then
      var u := x.proxies[x.pc.id];
      [Delivery(u.origin, if u.reverseFd in s.kernel then Some(s.kernel[u.reverseFd]) else None)] + rest
    else rest
  }

  /** The deliveries are all that is forwarded, and nothing else. */
  lemma {:induction false} ForwardsAreLogged(s: State, run: seq<Move>, r: State)
    requires Runs(s, run, r)
    ensures r.log == s.log + Forwarded(s, run)
    decreases |run|
  {
    if run == [] {
      assert s.log + [] == s.log;
    } else {
      var s' := Apply(s, run[0].worker, run[0].step);
      ForwardsAreLogged(s', run[1..], r);
      if run[0].step != Forward { LogOfStep(s, run[0].worker, run[0].step); }
      assert s'.log + Forwarded(s', run[1..]) == s.log + Forwarded(s, run);
    }
  }

  lemma LogOfStep(s: State, w: nat, step: Step)
    requires Enabled(s, w, step) && step != Forward
    ensures Apply(s, w, step).log == s.log
  {
  }

  /** Whenever a worker is about to forward, its target descriptor is open and is, in that
      worker's table and in no other, the client the entry is keyed by. */
  lemma {:induction false} ForwardMeetsLiveClient(r: State, w: nat)
    requires Reachable(r) && Enabled(r, w, Forward)
    ensures var x := r.workers[w];
      var u := x.proxies[x.pc.id];
      && u.reverseFd in x.clients && x.clients[u.reverseFd].id == x.pc.id
      && u.reverseFd in r.kernel && r.kernel[u.reverseFd] == ClientOf(u.origin)
      && forall v :: 0 <= v < |r.workers| && v != w ==> u.reverseFd !in r.workers[v].clients
  {
    ReachableInv(r);
    assert WorkerOk(r, w);
    forall v | 0 <= v < |r.workers| && v != w
      ensures r.workers[w].proxies[r.workers[w].pc.id].reverseFd !in r.workers[v].clients
    {
      assert WorkerOk(r, v);
    }
  }

  //// Descriptors

  ghost function Listeners(s: State): set<Fd> {
    set w | 0 <= w < |s.workers| && s.workers[w].listener.Some? :: s.workers[w].listener.value
  }

  ghost function ClientFds(s: State): set<Fd> {
    set w, fd | 0 <= w < |s.workers| && fd in s.workers[w].clients :: fd
  }

  ghost function UpstreamFds(s: State): set<Fd> {
    set w, id | 0 <= w < |s.workers| && id in s.workers[w].proxies && s.workers[w].proxies[id].fd.Some? ::
      s.workers[w].proxies[id].fd.value
  }

  ghost function Opened(s: State): set<Fd> {
    set fd | fd in s.kernel && s.kernel[fd] != Other
  }

  /** Descriptors between accept() and emplace(). */
  ghost function InFlight(s: State): set<Fd> {
    set w | 0 <= w < |s.workers| && (s.workers[w].pc.Accepted? || s.workers[w].pc.Counting?) :: s.workers[w].pc.fd
  }

  lemma {:induction false} ListenersAre(r: State, fd: Fd)
    requires Inv(r)
    ensures fd in Listeners(r) <==> fd in r.kernel && r.kernel[fd].Listener?
  {
    if fd in Listeners(r) {
      var w :| 0 <= w < |r.workers| && r.workers[w].listener == Some(fd);
      assert WorkerOk(r, w);
    }
    assert fd in r.kernel ==> Accounted(r, fd);
  }

  lemma {:induction false} UpstreamsAre(r: State, fd: Fd)
    requires Inv(r)
    ensures fd in UpstreamFds(r) <==> fd in r.kernel && r.kernel[fd].UpstreamOf?
  {
    if fd in UpstreamFds(r) {
      var w, id :| 0 <= w < |r.workers| && id in r.workers[w].proxies && r.workers[w].proxies[id].fd == Some(fd);
      assert WorkerOk(r, w);
    }
    assert fd in r.kernel ==> Accounted(r, fd);
  }

  /** A connection is in some table, or in the hands of the worker that is accepting it. */
  lemma {:induction false} ClientsAre(r: State, fd: Fd)
    requires Inv(r)
    ensures fd in ClientFds(r) || fd in InFlight(r) <==> fd in r.kernel && r.kernel[fd].ClientOf?
    ensures fd !in ClientFds(r) || fd !in InFlight(r)
  {
    if fd in ClientFds(r) {
      var w :| 0 <= w < |r.workers| && fd in r.workers[w].clients;
      assert WorkerOk(r, w);
    }
    if fd in InFlight(r) {
      var w :| 0 <= w < |r.workers| && (r.workers[w].pc.Accepted? || r.workers[w].pc.Counting?) && r.workers[w].pc.fd == fd;
      assert WorkerOk(r, w);
    }
    assert fd in r.kernel ==> Accounted(r, fd);
  }

  /** In every reachable state the descriptors the program opened are, without overlap, its
      listeners, its clients, the one connection being accepted, and its upstream sockets. */
  lemma {:induction false} DescriptorsPartition(r: State)
    requires Reachable(r)
    ensures Opened(r) == Listeners(r) + ClientFds(r) + InFlight(r) + UpstreamFds(r)
    ensures Listeners(r) !! ClientFds(r) !! InFlight(r) !! UpstreamFds(r)
    ensures forall fd, fd' :: fd in InFlight(r) && fd' in InFlight(r) ==> fd == fd'
    ensures forall w, v :: 0 <= w < v < |r.workers| && r.workers[w].listener.Some? ==>
              r.workers[w].listener != r.workers[v].listener
  {
    ReachableInv(r);
    forall fd
      ensures fd in Listeners(r) <==> fd in r.kernel && r.kernel[fd].Listener?
      ensures fd in ClientFds(r) || fd in InFlight(r) <==> fd in r.kernel && r.kernel[fd].ClientOf?
      ensures fd !in ClientFds(r) || fd !in InFlight(r)
      ensures fd in UpstreamFds(r) <==> fd in r.kernel && r.kernel[fd].UpstreamOf?
    {
      ListenersAre(r, fd);
      ClientsAre(r, fd);
      UpstreamsAre(r, fd);
    }
    OneInFlight(r);
    forall w, v | 0 <= w < v < |r.workers| && r.workers[w].listener.Some?
      ensures r.workers[w].listener != r.workers[v].listener
    {
      assert WorkerOk(r, w) && WorkerOk(r, v);
    }
  }

  lemma {:induction false} OneInFlight(r: State)
    requires Inv(r)
    ensures forall fd, fd' :: fd in InFlight(r) && fd' in InFlight(r) ==> fd == fd'
  {
    forall w | 0 <= w < |r.workers| && (r.workers[w].pc.Accepted? || r.workers[w].pc.Counting?)
      ensures r.lock == Some(w)
    {
      assert WorkerOk(r, w);
    }
  }

  /** Each worker watches its listener and exactly its clients; no client descriptor, and no
      upstream socket, has two holders. */
  lemma {:induction false} EveryDescriptorHasOneHolder(r: State, w: nat, v: nat)
    requires Reachable(r) && w < |r.workers| && v < |r.workers|
    ensures var x := r.workers[w];
      x.epoll == x.clients.Keys + (if x.listener.Some? then {x.listener.value} else {})
    ensures v != w ==> r.workers[w].clients.Keys !! r.workers[v].clients.Keys
    ensures forall id, id' ::
      && id in r.workers[w].proxies && id' in r.workers[v].proxies
      && r.workers[w].proxies[id].fd.Some? && r.workers[w].proxies[id].fd == r.workers[v].proxies[id'].fd
      ==> w == v && id == id'
  {
    ReachableInv(r);
    assert WorkerOk(r, w) && WorkerOk(r, v);
  }

  //// Client ids

  /** An id names one client among all workers. */
  lemma {:induction false} ClientIdsAreUnique(r: State, w: nat, fd: Fd, w': nat, fd': Fd)
    requires Reachable(r) && w < |r.workers| && w' < |r.workers|
    requires fd in r.workers[w].clients && fd' in r.workers[w'].clients
    requires r.workers[w].clients[fd].id == r.workers[w'].clients[fd'].id
    ensures w == w' && fd == fd'
  {
    ReachableInv(r);
    assert WorkerOk(r, w) && WorkerOk(r, w');
  }

  /** An id stays with its connection for ever, and no connection gets two. */
  lemma {:induction false} ClientIdsAreNeverReused(s: State, run: seq<Move>, r: State)
    requires Reachable(s) && Runs(s, run, r)
    ensures forall id :: id in s.issued ==> id in r.issued && r.issued[id] == s.issued[id]
    ensures forall id, id' :: id in r.issued && id' in r.issued && r.issued[id] == r.issued[id'] ==> id == id'
  {
    ReachableInv(s);
    RunsKeepInv(s, run, r);
    RunsGrow(s, run, r);
  }

  lemma {:induction false} RunsGrow(s: State, run: seq<Move>, r: State)
    requires Inv(s) && Runs(s, run, r)
    ensures Grows(s, r)
    decreases |run|
  {
    if run != [] {
      var s' := Apply(s, run[0].worker, run[0].step);
      assert WorkerOk(s, run[0].worker);
      StepKeepsInv(s, run[0].worker, run[0].step);
      RunsGrow(s', run[1..], r);
    }
  }

  /** The accept lock excludes: two workers are never both past accept() and before the end
      of the registration, so the two halves of the id increment cannot interleave. */
  lemma {:induction false} AcceptExcludes(r: State, w: nat, v: nat)
    requires Reachable(r) && w < |r.workers| && v < |r.workers|
    requires r.workers[w].pc.Counting? && (r.workers[v].pc.Accepting? || r.workers[v].pc.Accepted? || r.workers[v].pc.Counting?)
    ensures w == v && r.workers[w].pc.seen == r.maxId
  {
    ReachableInv(r);
    assert WorkerOk(r, w) && WorkerOk(r, v);
  }

  //// Closing

  /** When a reverse client tells the handler of a request to close, or cannot be connected,
      that client's cleanup is the next thing its worker does; the timer goes on instead. */
  lemma {:induction false} CloseLeadsToCleanup(s: State, w: nat, step: Step, next: Step)
    requires Enabled(s, w, step) && (step == Finish(true) || step == Connect(false))
    requires Enabled(Apply(s, w, step), w, next) && !next.OpenOther? && !next.CloseOther?
    ensures match s.workers[w].pc.caller
            case Handler(fd) => next == Cleanup(fd)
            case Timer(todo) => if todo == {} then next == SweepEnd else next.SweepNext? && next.id in todo
  {
  }

  /** Otherwise the worker is free again. */
  lemma {:induction false} FinishedHandlerIsIdle(s: State, w: nat)
    requires Enabled(s, w, Finish(false)) && s.workers[w].pc.caller.Handler?
    ensures Apply(s, w, Finish(false)).workers[w] == s.workers[w].(pc := Idle)
  {
  }

  //// The timer

  /** The timer of this worker has yet to turn to entry id. */
  ghost predicate IsDue(x: Worker, id: Id) {
    || (x.pc.Sweeping? && id in x.pc.todo)
    || (x.pc.Proxying? && x.pc.caller.Timer? && id in x.pc.caller.todo)
  }

  lemma {:induction false} OtherWorker(s: State, w: nat, m: Move)
    requires w < |s.workers| && Enabled(s, m.worker, m.step) && m.worker != w
    ensures var s' := Apply(s, m.worker, m.step); w < |s'.workers| && s'.workers[w] == s.workers[w]
  {
  }

  lemma {:induction false} StaysDue(s: State, w: nat, id: Id, m: Move)
    requires w < |s.workers| && IsDue(s.workers[w], id) && Enabled(s, m.worker, m.step)
    requires m != Move(w, SweepNext(id))
    ensures w < |Apply(s, m.worker, m.step).workers| && IsDue(Apply(s, m.worker, m.step).workers[w], id)
  {
    if m.worker != w {
      OtherWorker(s, w, m);
    } else {
      OwnStaysDue(s, w, id, m.step);
    }
  }

  lemma {:induction false} OwnStaysDue(s: State, w: nat, id: Id, step: Step)
    requires w < |s.workers| && IsDue(s.workers[w], id) && Enabled(s, w, step) && step != SweepNext(id)
    ensures w < |Apply(s, w, step).workers| && IsDue(Apply(s, w, step).workers[w], id)
  {
  }

  /** When pruning is over, every entry is due ... */
  lemma {:induction false} AllAreDue(s: State, w: nat, id: Id)
    requires Enabled(s, w, PruneEnd) && id in s.workers[w].proxies
    ensures IsDue(Apply(s, w, PruneEnd).workers[w], id)
  {
  }

  /** ... and no run gets past an entry that is due without turning to it. */
  lemma {:induction false} TimerTurnsToAll(s: State, run: seq<Move>, r: State, w: nat, id: Id)
    requires w < |s.workers| && IsDue(s.workers[w], id) && Runs(s, run, r)
    ensures (w < |r.workers| && IsDue(r.workers[w], id)) || Move(w, SweepNext(id)) in run
    decreases |run|
  {
    if run != [] && run[0] != Move(w, SweepNext(id)) {
      StaysDue(s, w, id, run[0]);
      TimerTurnsToAll(Apply(s, run[0].worker, run[0].step), run[1..], r, w, id);
    }
  }

  //// Why pruning comes first

  /** The entry id of worker x outlived its client, and its descriptor number is in use again. */
  ghost predicate Stale(x: Worker, id: Id) {
    && id in x.proxies && x.proxies[id].reverseFd in x.clients
    && x.clients[x.proxies[id].reverseFd].id != id
  }

  lemma {:induction false} RunsOneMore(s: State, run: seq<Move>, r: State, m: Move)
    requires Runs(s, run, r) && Enabled(r, m.worker, m.step)
    ensures Runs(s, run + [m], Apply(r, m.worker, m.step))
    decreases |run|
  {
    if run == [] {
      assert run + [m] == [m];
    } else {
      assert (run + [m])[1..] == run[1..] + [m];
      RunsOneMore(Apply(s, run[0].worker, run[0].step), run[1..], r, m);
    }
  }

  lemma {:induction false} ReachableNext(s: State, w: nat, step: Step)
    requires Reachable(s) && Enabled(s, w, step)
    ensures Reachable(Apply(s, w, step))
  {
    var s0, run :| Init(s0) && Runs(s0, run, s);
    RunsOneMore(s0, run, s, Move(w, step));
  }

  /** A worker accepts one client on descriptor fd. */
  lemma {:induction false} AcceptOne(s: State, fd: Fd) returns (r: State)
    requires Reachable(s) && |s.workers| == 1 && s.workers[0].pc == Idle && s.lock == None
    requires fd !in s.kernel && fd !in s.workers[0].clients
    ensures Reachable(r) && |r.workers| == 1 && r.lock == None && r.maxId == s.maxId + 1
    ensures r.workers[0] == s.workers[0].(
                              clients := s.workers[0].clients[fd := Client(r.maxId, |s.births|)],
                              epoll := s.workers[0].epoll + {fd})
    ensures r.kernel == s.kernel[fd := ClientOf(|s.births|)]
  {
    ReachableNext(s, 0, Lock);
    var a := Apply(s, 0, Lock);
    ReachableNext(a, 0, Accept(fd));
    var b := Apply(a, 0, Accept(fd));
    ReachableNext(b, 0, ReadCounter);
    var c := Apply(b, 0, ReadCounter);
    ReachableNext(c, 0, Register);
    var d := Apply(c, 0, Register);
    ReachableNext(d, 0, Unlock);
    r := Apply(d, 0, Unlock);
  }

  /** A request is proxied, connecting fails, the client is closed; its entry stays. */
  lemma {:induction false} ProxyAndClose(s: State, fd: Fd) returns (r: State)
    requires Reachable(s) && |s.workers| == 1 && s.workers[0].pc == Idle && s.lock == None
    requires fd in s.workers[0].clients && s.workers[0].proxies == map[] && fd in s.kernel
    ensures Reachable(r) && |r.workers| == 1 && r.lock == None && r.maxId == s.maxId
    ensures r.workers[0].pc == Idle && r.kernel == s.kernel - {fd} && fd !in r.workers[0].clients
    ensures var id := s.workers[0].clients[fd].id;
      id in r.workers[0].proxies && r.workers[0].proxies[id].reverseFd == fd
  {
    ReachableNext(s, 0, Request(fd));
    var a := Apply(s, 0, Request(fd));
    ReachableNext(a, 0, OpenNew(None));
    var b := Apply(a, 0, OpenNew(None));
    ReachableNext(b, 0, Connect(false));
    var c := Apply(b, 0, Connect(false));
    ReachableNext(c, 0, Cleanup(fd));
    r := Apply(c, 0, Cleanup(fd));
  }

  /** Stale entries do occur, with a single worker already: safety rests on the pruning. */
  lemma {:induction false} StaleEntriesOccur(fd: Fd)
    ensures exists r, id :: Reachable(r) && |r.workers| == 1 && Stale(r.workers[0], id)
  {
    var s := State(map[], None, 0, [Worker(None, map[], {}, map[], NotStarted)], [], map[], []);
    assert Init(s) && Runs(s, [], s);
    ReachableNext(s, 0, Setup(fd + 1));
    var a := Apply(s, 0, Setup(fd + 1));
    var b := AcceptOne(a, fd);
    var c := ProxyAndClose(b, fd);
    var d := AcceptOne(c, fd);
    assert Stale(d.workers[0], 1);
  }
}
