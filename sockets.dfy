/** The platform pieces the driver calls but does not implement: the TCP
    socket it owns and the outcome of each fallible platform call. Only what
    the driver observes of them is kept. */
module Sockets {
  import opened Bytes

  datatype Option<T> = None | Some(value: T)

  /** The remote address built from the URL's host text and the chosen port. */
  datatype Endpoint = Endpoint(host: string, port: int)

  /** How each fallible step of bringing the socket up turns out: the socket
      subsystem lookup, socket creation, parsing the host as an IP address,
      the blocking connect, and creating the receive thread. */
  datatype Platform = Platform(
    hasSubsystem: bool,
    socketCreated: bool,
    ipValid: bool,
    connects: bool,
    threadCreated: bool)

  /** A stream socket. `sent` is every byte handed to Send, in order; a send
      is taken to transmit all the bytes it is given. */
  class Socket {
    var connected: bool
    var noDelay: bool
    var closed: bool
    var destroyed: bool
    var remote: Option<Endpoint>
    var sent: seq<byte>

    /** A freshly created, unconnected socket. */
    constructor ()
      ensures !connected && !noDelay && !closed && !destroyed
      ensures remote == None && sent == []
    {
      connected, noDelay, closed, destroyed := false, false, false, false;
      remote, sent := None, [];
    }

    /** The blocking connect; `succeeds` is the network's answer. */
    method Connect(addr: Endpoint, succeeds: bool) returns (ok: bool)
      modifies this`connected, this`remote
      ensures ok == succeeds && connected == succeeds
      ensures remote == if succeeds then Some(addr) else old(remote)
    {
      ok := succeeds;
      connected := succeeds;
      if succeeds {
        remote := Some(addr);
      }
    }

    /** Disables Nagle's algorithm. */
    method SetNoDelay()
      modifies this`noDelay
      ensures noDelay
    {
      noDelay := true;
    }

    method Send(data: seq<byte>)
      modifies this`sent
      ensures sent == old(sent) + data
    {
      sent := sent + data;
    }

    method Close()
      modifies this`closed, this`connected
      ensures closed && !connected
    {
      closed, connected := true, false;
    }

    /** The socket subsystem's DestroySocket: releases the handle. */
    method Destroy()
      modifies this`destroyed
      ensures destroyed
    {
      destroyed := true;
    }
  }
}
