/** All workers of the server with their connection tables and reverse-proxy tables, over
    one kernel. Each step of a worker does at most one access to what the workers share:
    a call on the kernel's descriptor table, the accept lock, or a read or a write of the
    counter behind the client ids. What a worker does to its own tables goes with the step
    before or after it. */
module Workers {
  import opened Text

  type Fd = nat
  type Id = nat

  /** The serial number of an accepted connection: the truth the code never sees. */
  type Conn = nat

  /** What an open descriptor is. */
  datatype Owner =
    | Other
    | Listener(worker: nat)
    | ClientOf(conn: Conn)
    | UpstreamOf(worker: nat, id: Id)

  /** An entry of `establishedClients`; conn is history. */
  datatype Client = Client(id: Id, conn: Conn)

  /** A `ReverseClient`; origin, the connection whose request made it, is history. */
  datatype Upstream = Upstream(fd: Option<Fd>, connected: bool, reverseFd: Fd, origin: Conn)

  /** Who called into a reverse client: the handler of a request, or the module timer. */
  datatype Caller = Handler(fd: Fd) | Timer(todo: set<Id>)

  datatype Stage = Checking | Dialing | Relaying

  datatype Pc =
    | NotStarted
    | Idle
    | Accepting
    | Accepted(fd: Fd, conn: Conn)
    | Counting(fd: Fd, conn: Conn, seen: nat)
    | Proxying(id: Id, stage: Stage, caller: Caller)
    | Closing(fd: Fd)
    | Pruning
    | Sweeping(todo: set<Id>)

  datatype Worker = Worker(
    listener: Option<Fd>, clients: map<Fd, Client>, epoll: set<Fd>, proxies: map<Id, Upstream>, pc: Pc)

  /** One forwarded block: whose request opened the upstream, and what the target descriptor
      was at that moment. */
  datatype Delivery = Delivery(origin: Conn, target: Option<Owner>)

  /** Where a connection was accepted. */
  datatype Birth = Birth(worker: nat, fd: Fd)

  datatype State = State(
    kernel: map<Fd, Owner>, lock: Option<nat>, maxId: nat, workers: seq<Worker>,
    births: seq<Birth>, issued: map<Id, Conn>, log: seq<Delivery>)

  datatype Step =
    | Setup(fd: Fd)              // the listening socket
    | Lock                       // accept_connections takes the lock
    | Accept(fd: Fd)             // accept() hands out any descriptor that is not open
    | ReadCounter                // ++max_client_id, first half
    | Register                   // second half; emplace; epoll add
    | Unlock                     // accept() has no more, the lock is released
    | Cleanup(fd: Fd)            // cleanup_connection
    | Request(fd: Fd)            // ModReverseProxy::handle finds or makes the entry
    | CloseOld                   // connect_server closes an unconnected socket
    | OpenNew(sock: Option<Fd>) // socket(), which may fail
    | Connect(ok: bool)          // connect()
    | AlreadyConnected
    | Forward                    // read a block, send it to reverse_fd
    | Finish(close: bool)        // the reverse client returns
    | TimerStart
    | Prune(id: Id)              // erase_if drops one entry; its destructor closes
    | PruneEnd
    | SweepNext(id: Id)          // the timer turns to one entry
    | SweepEnd
    | OpenOther(fd: Fd)          // the rest of the process opens and closes files meanwhile
    | CloseOther(fd: Fd)

  function Live(x: Worker): set<Id> {
    set fd | fd in x.clients :: x.clients[fd].id
  }

  function OwnerOf(kernel: map<Fd, Owner>, fd: Fd): Option<Owner> {
    if fd in kernel then Some(kernel[fd]) else None
  }

  predicate Enabled(s: State, w: nat, step: Step) {
    && w < |s.workers|
    && var x := s.workers[w];
       match step
       case Setup(fd) => x.pc == NotStarted && fd !in s.kernel
       case Lock => x.pc == Idle && s.lock == None
       case Accept(fd) => x.pc == Accepting && fd !in s.kernel
       case ReadCounter => x.pc.Accepted?
       case Register => x.pc.Counting?
       case Unlock => x.pc == Accepting
       case Cleanup(fd) => fd in x.clients && (x.pc == Idle || x.pc == Closing(fd))
       case Request(fd) => x.pc == Idle && fd in x.clients
       case CloseOld => AtEntry(x, Checking) && !x.proxies[x.pc.id].connected && x.proxies[x.pc.id].fd.Some?
       case OpenNew(sock) =>
         && AtEntry(x, Checking) && !x.proxies[x.pc.id].connected && x.proxies[x.pc.id].fd.None?
         && (sock.Some? ==> sock.value !in s.kernel)
       case Connect(ok) => AtEntry(x, Dialing) && (ok ==> x.proxies[x.pc.id].fd.Some?)
       case AlreadyConnected => AtEntry(x, Checking) && x.proxies[x.pc.id].connected
       case Forward => AtEntry(x, Relaying)
       case Finish(close) => AtEntry(x, Relaying)
       case TimerStart => x.pc == Idle
       case Prune(id) => x.pc == Pruning && id in x.proxies && id !in Live(x)
       case PruneEnd => x.pc == Pruning && x.proxies.Keys <= Live(x)
       case SweepNext(id) => x.pc.Sweeping? && id in x.pc.todo
       case SweepEnd => x.pc == Sweeping({})
       case OpenOther(fd) => fd !in s.kernel
       case CloseOther(fd) => fd in s.kernel && s.kernel[fd] == Other
  }

  predicate AtEntry(x: Worker, stage: Stage) {
    x.pc.Proxying? && x.pc.stage == stage && x.pc.id in x.proxies
  }

  /** Where a worker goes when a reverse client returns; only a handler's close is heeded. */
  function Return(caller: Caller, close: bool): Pc {
    match caller
    case Handler(fd) => if close then Closing(fd) else Idle
    case Timer(todo) => Sweeping(todo)
  }

  function Close(kernel: map<Fd, Owner>, fd: Option<Fd>): map<Fd, Owner> {
    if fd.Some? then kernel - {fd.value} else kernel
  }

  /** The effect of `cleanup_connection` on table, epoll set and kernel. */
  function CleanedUp(clients: map<Fd, Client>, epoll: set<Fd>, kernel: map<Fd, Owner>, fd: Fd)
    : (map<Fd, Client>, set<Fd>, map<Fd, Owner>)
  {
    (clients - {fd}, epoll - {fd}, kernel - {fd})
  }

  /** The effect of `try_emplace` on the entries: one for client c, unless it has one. */
  function WithEntry(proxies: map<Id, Upstream>, fd: Fd, c: Client): map<Id, Upstream> {
    if c.id in proxies then proxies else proxies[c.id := Upstream(None, false, fd, c.conn)]
  }

  function Apply(s: State, w: nat, step: Step): State
    requires Enabled(s, w, step)
  {
    var x := s.workers[w];
    match step
    case Setup(fd) =>
      s.(kernel := s.kernel[fd := Listener(w)],
         workers := s.workers[w := x.(listener := Some(fd), epoll := x.epoll + {fd}, pc := Idle)])
    case Lock =>
      s.(lock := Some(w), workers := s.workers[w := x.(pc := Accepting)])
    case Accept(fd) =>
      s.(kernel := s.kernel[fd := ClientOf(|s.births|)], births := s.births + [Birth(w, fd)],
         workers := s.workers[w := x.(pc := Accepted(fd, |s.births|))])
    case ReadCounter =>
      s.(workers := s.workers[w := x.(pc := Counting(x.pc.fd, x.pc.conn, s.maxId))])
    case Register =>
      var id := x.pc.seen + 1;
      s.(maxId := id, issued := s.issued[id := x.pc.conn],
         workers := s.workers[w := x.(
             clients := if x.pc.fd in x.clients then x.clients else x.clients[x.pc.fd := Client(id, x.pc.conn)],
             epoll := x.epoll + {x.pc.fd}, pc := Accepting)])
    case Unlock =>
      s.(lock := None, workers := s.workers[w := x.(pc := Idle)])
    case Cleanup(fd) =>
      var (clients, epoll, kernel) := CleanedUp(x.clients, x.epoll, s.kernel, fd);
      s.(kernel := kernel, workers := s.workers[w := x.(epoll := epoll, clients := clients, pc := Idle)])
    case Request(fd) =>
      var c := x.clients[fd];
      s.(workers := s.workers[w := x.(proxies := WithEntry(x.proxies, fd, c), pc := Proxying(c.id, Checking, Handler(fd)))])
    case CloseOld =>
      var u := x.proxies[x.pc.id];
      s.(kernel := Close(s.kernel, u.fd),
         workers := s.workers[w := x.(proxies := x.proxies[x.pc.id := u.(fd := None)])])
    case OpenNew(sock) =>
      var u := x.proxies[x.pc.id];
      s.(kernel := if sock.Some? then s.kernel[sock.value := UpstreamOf(w, x.pc.id)] else s.kernel,
         workers := s.workers[w := x.(
             proxies := x.proxies[x.pc.id := u.(fd := sock)], pc := x.pc.(stage := Dialing))])
    case Connect(ok) =>
      var u := x.proxies[x.pc.id];
      s.(workers := s.workers[w :=
           if ok then x.(proxies := x.proxies[x.pc.id := u.(connected := true)], pc := x.pc.(stage := Relaying))
           else x.(pc := Return(x.pc.caller, true))])
    case AlreadyConnected =>
      s.(workers := s.workers[w := x.(pc := x.pc.(stage := Relaying))])
    case Forward =>
      var u := x.proxies[x.pc.id];
      s.(log := s.log + [Delivery(u.origin, OwnerOf(s.kernel, u.reverseFd))])
    case Finish(close) =>
      s.(workers := s.workers[w := x.(pc := Return(x.pc.caller, close))])
    case TimerStart =>
      s.(workers := s.workers[w := x.(pc := Pruning)])
    case Prune(id) =>
      s.(kernel := Close(s.kernel, x.proxies[id].fd),
         workers := s.workers[w := x.(proxies := x.proxies - {id})])
    case PruneEnd =>
      s.(workers := s.workers[w := x.(pc := Sweeping(x.proxies.Keys))])
    case SweepNext(id) =>
      s.(workers := s.workers[w := x.(pc := Proxying(id, Checking, Timer(x.pc.todo - {id})))])
    case SweepEnd =>
      s.(workers := s.workers[w := x.(pc := Idle)])
    case OpenOther(fd) =>
      s.(kernel := s.kernel[fd := Other])
    case CloseOther(fd) =>
      s.(kernel := s.kernel - {fd})
  }

  /** Before any worker runs: the process may hold other descriptors already. */
  ghost predicate Init(s: State) {
    && (forall fd :: fd in s.kernel ==> s.kernel[fd] == Other)
    && s.lock == None && s.maxId == 0 && s.births == [] && s.issued == map[] && s.log == []
    && forall w :: 0 <= w < |s.workers| ==> s.workers[w] == Worker(None, map[], {}, map[], NotStarted)
  }

  /** A scheduled step: which worker moves, and how. */
  datatype Move = Move(worker: nat, step: Step)

  /** run can be taken from s, whatever the interleaving, and leads to r. */
  ghost predicate Runs(s: State, run: seq<Move>, r: State)
    decreases |run|
  {
    if run == [] then r == s
    else Enabled(s, run[0].worker, run[0].step) && Runs(Apply(s, run[0].worker, run[0].step), run[1..], r)
  }
}
