/** The pruning of `ModReverseProxy`, done in place. */
module ReverseProxy {
  import opened Text
  import opened Workers
  import opened ServerConnections

  ghost function LiveIds(table: map<Fd, Client>): set<Id> {
    set fd | fd in table :: table[fd].id
  }

  /** The entries that survive a pruning: those keyed by the id of a connected client. */
  ghost function Pruned(proxies: map<Id, Upstream>, live: set<Id>): map<Id, Upstream> {
    map id | id in proxies && id in live :: proxies[id]
  }

  /** The sockets their destructors close. */
  ghost function Dropped(proxies: map<Id, Upstream>, live: set<Id>): set<Fd> {
    set id | id in proxies && id !in live && proxies[id].fd.Some? :: proxies[id].fd.value
  }

  /** What `connect_server` returns and leaves behind, given what socket() and connect() say. */
  function Connected(open: map<Fd, Owner>, u: Upstream, self: Owner, sock: Option<Fd>, reachable: bool)
    : (bool, Upstream, map<Fd, Owner>)
  {
    if u.connected then (true, u, open) else
    var open' := Workers.Close(open, u.fd);
    var ok := sock.Some? && reachable;
    (ok, u.(fd := sock, connected := ok), if sock.Some? then open'[sock.value := self] else open')
  }

  class ModReverseProxy {
    var clients: map<Id, Upstream>
    /** The server of this worker; none before `module_init`. */
    var server: Server?

    constructor ()
      ensures clients == map[] && server == null
    {
      clients, server := map[], null;
    }

    method ModuleInit(server: Server)
      modifies this
      ensures this.server == server && clients == old(clients)
    {
      this.server := server;
    }

    /** `handle` on its table: an entry for the client, made if there is none. */
    method FindOrMake(fd: Fd, client: Client)
      modifies this`clients
      ensures clients == WithEntry(old(clients), fd, client)
    {
      if client.id !in clients {
        clients := clients[client.id := Upstream(None, false, fd, client.conn)];
      }
    }

    /** `connect_server` of one entry; an unconnected socket is closed before a new one. */
    method ConnectServer(kernel: Process, self: Owner, id: Id, sock: Option<Fd>, reachable: bool) returns (ok: bool)
      requires id in clients
      modifies this`clients, kernel
      ensures var (r, u, open) := Connected(old(kernel.open), old(clients)[id], self, sock, reachable);
        ok == r && clients == old(clients)[id := u] && kernel.open == open
    {
      var u := clients[id];
      if u.connected { return true; }
      if u.fd.Some? { kernel.Close(u.fd.value); }
      if sock.Some? { kernel.Open(sock.value, self); }
      ok := sock.Some? && reachable;
      clients := clients[id := u.(fd := sock, connected := ok)];
    }

    static method ConnectedIds(table: map<Fd, Client>) returns (ids: seq<Id>)
      ensures forall id :: id in ids <==> id in LiveIds(table)
    {
      ids := [];
      var unseen := table.Keys;
      while unseen != {}
        invariant unseen <= table.Keys
        invariant forall id :: id in ids <==> exists fd :: fd in table.Keys - unseen && table[fd].id == id
        decreases |unseen|
      {
        var fd :| fd in unseen;
        ids := ids + [table[fd].id];
        unseen := unseen - {fd};
      }
    }

    /** Erases one entry; the destructor of its `ReverseClient` closes the socket it holds. */
    method Erase(kernel: Process, id: Id)
      requires id in clients
      modifies this`clients, kernel
      ensures clients == old(clients) - {id}
      ensures kernel.open == Workers.Close(old(kernel.open), old(clients)[id].fd)
    {
      if clients[id].fd.Some? { kernel.Close(clients[id].fd.value); }
      clients := clients - {id};
    }

    /** Erases every entry whose id is not listed. */
    method EraseUnlisted(kernel: Process, ids: seq<Id>, ghost live: set<Id>)
      requires forall id :: id in ids <==> id in live
      modifies this`clients, kernel
      ensures clients == Pruned(old(clients), live)
      ensures kernel.open == old(kernel.open) - Dropped(old(clients), live)
    {
      ghost var before, open := clients, kernel.open;
      var todo := clients.Keys;
      while todo != {}
        invariant todo <= before.Keys
        invariant clients == Pruned(before, todo + live)
        invariant kernel.open == open - Dropped(before, todo + live)
        decreases |todo|
      {
        var id :| id in todo;
        EraseStep(before, todo, live, id, open);
        if id !in ids { Erase(kernel, id); }
        todo := todo - {id};
      }
      assert {} + live == live;
    }

    /** Keeps the entries keyed by the id of a connected client, and only those. */
    method ClearUnusedConnections(kernel: Process)
      modifies this`clients, kernel
      ensures old(server) == null ==> clients == old(clients) && kernel.open == old(kernel.open)
      ensures old(server) != null ==>
                var live := LiveIds(old(server.establishedClients));
                && clients == Pruned(old(clients), live)
                && kernel.open == old(kernel.open) - Dropped(old(clients), live)
    {
      if server == null { return; }
      var ids := ConnectedIds(server.establishedClients);
      EraseUnlisted(kernel, ids, LiveIds(server.establishedClients));
    }
  }

  /** One turn of the erasing loop. */
  lemma EraseStep(m: map<Id, Upstream>, todo: set<Id>, live: set<Id>, id: Id, open: map<Fd, Owner>)
    requires id in m && id in todo
    ensures id in Pruned(m, todo + live) && Pruned(m, todo + live)[id] == m[id]
    ensures id in live ==> Pruned(m, todo - {id} + live) == Pruned(m, todo + live)
    ensures id !in live ==> Pruned(m, todo - {id} + live) == Pruned(m, todo + live) - {id}
    ensures id in live ==> Dropped(m, todo - {id} + live) == Dropped(m, todo + live)
    ensures id !in live ==>
              open - Dropped(m, todo - {id} + live) == Workers.Close(open - Dropped(m, todo + live), m[id].fd)
  {
    if id !in live && m[id].fd.Some? {
      assert Dropped(m, todo - {id} + live) == Dropped(m, todo + live) + {m[id].fd.value};
    }
    if id !in live && m[id].fd.None? {
      assert Dropped(m, todo - {id} + live) == Dropped(m, todo + live);
    }
  }

  //// connect_server as steps of a worker

  /** Uninterrupted, the steps of a worker on an unconnected entry do what `connect_server`
      does; the new socket may get the very number that was closed before. */
  lemma {:induction false} ConnectIsSteps(s: State, w: nat, sock: Option<Fd>, ok: bool) returns (run: seq<Move>, r: State)
    requires w < |s.workers| && AtEntry(s.workers[w], Checking)
    requires var u := s.workers[w].proxies[s.workers[w].pc.id];
      && !u.connected && (ok ==> sock.Some?)
      && (u.fd.Some? ==> u.fd.value in s.kernel)
      && (sock.Some? ==> sock.value !in Workers.Close(s.kernel, u.fd))
    ensures Runs(s, run, r) && |r.workers| == |s.workers|
    ensures var x := s.workers[w];
      var (c, u, open) := Connected(s.kernel, x.proxies[x.pc.id], UpstreamOf(w, x.pc.id), sock, ok);
      && c == ok && r.kernel == open && r.workers[w].proxies == x.proxies[x.pc.id := u]
      && r.workers[w].pc == (if ok then x.pc.(stage := Relaying) else Return(x.pc.caller, true))
  {
    var u := s.workers[w].proxies[s.workers[w].pc.id];
    var a := if u.fd.Some? then Apply(s, w, CloseOld) else s;
    var b := Apply(a, w, OpenNew(sock));
    r := Apply(b, w, Connect(ok));
    assert Runs(b, [Move(w, Connect(ok))], r);
    assert Runs(a, [Move(w, OpenNew(sock)), Move(w, Connect(ok))], r);
    run := [Move(w, OpenNew(sock)), Move(w, Connect(ok))];
    if u.fd.Some? {
      assert ([Move(w, CloseOld)] + run)[1..] == run;
      run := [Move(w, CloseOld)] + run;
    }
  }

  //// The same pruning, entry by entry among the steps of other workers

  /** However the entries are dropped one by one, what is left at the end is the same. */
  lemma {:induction false} PruneStepTowards(s: State, w: nat, id: Id)
    requires Enabled(s, w, Prune(id))
    ensures var (x, x') := (s.workers[w], Apply(s, w, Prune(id)).workers[w]);
      && Pruned(x'.proxies, Live(x')) == Pruned(x.proxies, Live(x))
      && Apply(s, w, Prune(id)).kernel.Keys - Dropped(x'.proxies, Live(x')) == s.kernel.Keys - Dropped(x.proxies, Live(x))
  {
    var x, s' := s.workers[w], Apply(s, w, Prune(id));
    var x' := s'.workers[w];
    assert Live(x') == Live(x);
    assert Dropped(x.proxies, Live(x)) ==
      Dropped(x'.proxies, Live(x')) + (if x.proxies[id].fd.Some? then {x.proxies[id].fd.value} else {}) by {
      assert forall i :: i in x.proxies && i != id ==> x'.proxies[i] == x.proxies[i];
    }
  }

  lemma {:induction false} PruneEndIsPruned(s: State, w: nat)
    requires Enabled(s, w, PruneEnd)
    ensures Pruned(s.workers[w].proxies, Live(s.workers[w])) == s.workers[w].proxies
    ensures Dropped(s.workers[w].proxies, Live(s.workers[w])) == {}
  {
  }
}
