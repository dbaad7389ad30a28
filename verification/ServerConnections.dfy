/** The connection table of one server, changed in place. */
module ServerConnections {
  import opened Workers

  /** The descriptor table that all servers of the process share. */
  class Process {
    var open: map<Fd, Owner>

    constructor ()
      ensures open == map[]
    {
      open := map[];
    }

    method Open(fd: Fd, owner: Owner)
      modifies this
      ensures open == old(open)[fd := owner]
    {
      open := open[fd := owner];
    }

    method Close(fd: Fd)
      modifies this
      ensures open == old(open) - {fd}
    {
      open := open - {fd};
    }
  }

  class Server {
    var establishedClients: map<Fd, Client>
    var epoll: set<Fd>

    constructor ()
      ensures establishedClients == map[] && epoll == {}
    {
      establishedClients, epoll := map[], {};
    }

    method CleanupConnection(process: Process, fd: Fd) returns (found: bool)
      modifies this, process
      ensures found <==> fd in old(establishedClients)
      ensures !found ==>
                establishedClients == old(establishedClients) && epoll == old(epoll) && process.open == old(process.open)
      ensures found ==>
                (establishedClients, epoll, process.open) ==
                CleanedUp(old(establishedClients), old(epoll), old(process.open), fd)
    {
      if fd !in establishedClients { return false; }
      epoll := epoll - {fd};
      process.Close(fd);
      establishedClients := establishedClients - {fd};
      return true;
    }
  }
}
