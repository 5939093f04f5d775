/** The client-side TCP net driver (UUnitedNetDriver) and its connection
    (UUnitedNetConnection): bringing the socket and the receive thread up and
    down, the outgoing packet queue flushed once per tick, and the
    connection's send and receive paths. The driver and the connection refer
    to each other, so both live here. */
module UnitedNet {
  import opened Bytes
  import opened Framing
  import opened Sockets
  import opened Receiver

  /** Port used when the URL gives none. */
  const DefaultPort: int := 7777

  /** What LowLevelGetRemoteAddress reports, whatever the peer. */
  const RemoteAddressText: string := "UnitedTCPRemote"

  const ClientOnlyError: string := "This driver is client-only in the current design."
  const NoSubsystemError: string := "No socket subsystem"
  const SocketCreateError: string := "Socket creation failed"
  const InvalidIpError: string := "Invalid remote IP"
  const ConnectError: string := "TCP connect failed"
  const ThreadCreateError: string := "Failed to create recv thread"

  /** The steps of StartSocket that can fail, in the order they are tried. */
  datatype StartStep = FindSubsystem | CreateSocket | ParseAddress | ConnectSocket | CreateThread

  /** The first step of StartSocket that fails on `platform`, if any. */
  function FirstFailure(platform: Platform): (r: Option<StartStep>)
    ensures r == None <==>
      platform.hasSubsystem && platform.socketCreated && platform.ipValid &&
      platform.connects && platform.threadCreated
    ensures r == Some(FindSubsystem) <==> !platform.hasSubsystem
    ensures r == Some(CreateThread) ==>
      platform.hasSubsystem && platform.socketCreated && platform.ipValid && platform.connects
  {
    if !platform.hasSubsystem then Some(FindSubsystem)
    else if !platform.socketCreated then Some(CreateSocket)
    else if !platform.ipValid then Some(ParseAddress)
    else if !platform.connects then Some(ConnectSocket)
    else if !platform.threadCreated then Some(CreateThread)
    else None
  }

  /** The error text StartSocket reports when `step` fails. */
  function StartError(step: StartStep): (error: string)
    ensures error != "" && error != ClientOnlyError
  {
    match step
    case FindSubsystem => NoSubsystemError
    case CreateSocket => SocketCreateError
    case ParseAddress => InvalidIpError
    case ConnectSocket => ConnectError
    case CreateThread => ThreadCreateError
  }

  /** Each failure has its own text, distinct from InitBase's refusal, so the
      error a caller sees names the step that failed. */
  lemma StartErrorsDistinct(a: StartStep, b: StartStep)
    ensures StartError(a) == StartError(b) <==> a == b
    ensures StartError(a) != ClientOnlyError
  {
    assert |StartError(a)| != |ClientOnlyError|;
    if a != b {
      assert |StartError(a)| != |StartError(b)|;
    }
  }

  /** The port InitBase connects to: the URL's port when it gives a positive
      one, the default port otherwise. */
  function EffectivePort(urlPort: int): (port: int)
    ensures port > 0
    ensures urlPort > 0 ==> port == urlPort
    ensures urlPort <= 0 ==> port == DefaultPort
  {
    if urlPort > 0 then urlPort else DefaultPort
  }

  /** FMath::DivideAndRoundUp(countBits, 8): the number of whole bytes that
      hold `countBits` bits. */
  function BytesForBits(countBits: nat): (n: nat)
    ensures n * 8 >= countBits
    ensures n == 0 || (n - 1) * 8 < countBits
  {
    (countBits + 8 - 1) / 8
  }

  /** The engine's thread running a RecvRunnable. */
  class RecvThread {
    const runnable: RecvRunnable
    var running: bool

    constructor (runnable: RecvRunnable)
      ensures this.runnable == runnable && running
    {
      this.runnable := runnable;
      running := true;
    }

    /** Kill(true): asks the runnable to stop and waits until its loop has ended. */
    method Kill()
      modifies this`running, runnable`stop
      ensures runnable.stop && !running
    {
      runnable.Stop();
      running := false;
    }
  }

  /** The client connection the driver creates in InitBase. `driver` is the
      result of casting the connection's driver to a UnitedNetDriver (null
      when the cast fails); `delivered` is every packet handed on to the
      engine's generic receive path, in order. */
  class UnitedNetConnection {
    var driver: UnitedNetDriver?
    var open: bool
    var delivered: seq<seq<byte>>

    /** NewObject, then `Driver = this`, then InitConnection with USOCK_Open. */
    constructor (driver: UnitedNetDriver)
      ensures this.driver == driver && open && delivered == []
    {
      this.driver := driver;
      open := true;
      delivered := [];
    }

    /** Sends `countBits` bits of `data`: the whole bytes holding them are
        queued on the driver as one packet; with no driver, nothing is sent. */
    method LowLevelSend(data: seq<byte>, countBits: nat)
      requires countBits <= MaxInt32 - 7
      requires BytesForBits(countBits) <= |data|
      modifies (if driver == null then {} else {driver})`outgoingPackets
      ensures driver != null ==>
        driver.outgoingPackets == old(driver.outgoingPackets) + [data[..BytesForBits(countBits)]]
    {
      var countBytes := BytesForBits(countBits);
      var payload: Packet := data[..countBytes];
      if driver != null {
        driver.EnqueueOutgoingPacket(payload);
      }
    }

    /** Forwards a received packet to the engine's generic receive path. */
    method ReceivedRawPacket(packet: seq<byte>)
      modifies this`delivered
      ensures delivered == old(delivered) + [packet]
    {
      delivered := delivered + [packet];
    }

    /** The engine's Close on the connection. */
    method Close()
      modifies this`open
      ensures !open
    {
      open := false;
    }

    /** The remote address text: a fixed name, with or without a port asked for. */
    function LowLevelGetRemoteAddress(appendPort: bool): (r: string)
      ensures r == RemoteAddressText
    {
      RemoteAddressText
    }
  }

  /** The driver. `socket`, `recvThread` and `recvRunnable` are the pointers
      StartSocket sets and StopSocket clears; `outgoingPackets` is the queue
      the game thread fills and TickDispatch drains. */
  class UnitedNetDriver {
    var socket: Socket?
    var recvThread: RecvThread?
    var recvRunnable: RecvRunnable?
    var serverConnection: UnitedNetConnection?
    var outgoingPackets: seq<Packet>

    constructor ()
      ensures socket == null && recvThread == null && recvRunnable == null
      ensures serverConnection == null && outgoingPackets == []
    {
      socket := null;
      recvThread := null;
      recvRunnable := null;
      serverConnection := null;
      outgoingPackets := [];
    }

    /** The socket is up: connected to the remote end with Nagle disabled,
        read by a running thread whose runnable owns this same socket and
        has not been asked to stop. */
    predicate Running()
      reads this, socket, recvThread, recvRunnable
    {
      socket != null && recvThread != null && recvRunnable != null &&
      socket.connected && socket.noDelay && !socket.closed && !socket.destroyed &&
      recvThread.runnable == recvRunnable && recvThread.running &&
      recvRunnable.socket == socket && !recvRunnable.stop
    }

    /** Opens the TCP connection to `host`:`port` and starts the receive
        thread. Steps are tried in order and the first failure is reported;
        a socket created before a failure is destroyed and the pointer cleared,
        and it is closed first only when the thread could not be created.
        `created` is the socket this call created, if any. */
    method StartSocket(host: string, port: int, platform: Platform)
      returns (ok: bool, error: string, ghost created: Socket?)
      modifies this`socket, this`recvThread, this`recvRunnable
      ensures ok <==> FirstFailure(platform) == None
      ensures !ok ==> error == StartError(FirstFailure(platform).value)
      ensures ok ==> Running() && socket == created && socket.remote == Some(Endpoint(host, port))
      ensures ok ==> fresh(socket) && fresh(recvThread) && fresh(recvRunnable)
      ensures ok ==> recvRunnable.stream == [] && recvRunnable.expectedSize == 0 && recvRunnable.handoffs == []
      ensures ok ==> socket.sent == []
      ensures !ok && platform.hasSubsystem ==> socket == null
      ensures FirstFailure(platform) == Some(FindSubsystem) ==> socket == old(socket) && created == null
      ensures FirstFailure(platform) == Some(CreateSocket) ==> created == null
      ensures !ok && FirstFailure(platform) != Some(CreateThread) ==>
        recvThread == old(recvThread) && recvRunnable == old(recvRunnable)
      ensures FirstFailure(platform) == Some(CreateThread) ==> recvThread == null && recvRunnable == null
      ensures !ok && created != null ==>
        fresh(created) && created.destroyed && (created.closed <==> FirstFailure(platform) == Some(CreateThread))
    {
      created := null;
      if !platform.hasSubsystem {
        return false, NoSubsystemError, created;
      }
      if !platform.socketCreated {
        socket := null;
        return false, SocketCreateError, created;
      }
      var s := new Socket();
      socket := s;
      created := s;
      var addr := Endpoint(host, port);
      if !platform.ipValid {
        s.Destroy();
        socket := null;
        return false, InvalidIpError, created;
      }
      var connected := s.Connect(addr, platform.connects);
      if !connected {
        s.Destroy();
        socket := null;
        return false, ConnectError, created;
      }
      s.SetNoDelay();
      var runnable := new RecvRunnable(s);
      recvRunnable := runnable;
      if !platform.threadCreated {
        recvThread := null;
        runnable.Stop();
        recvRunnable := null;
        s.Close();
        s.Destroy();
        socket := null;
        return false, ThreadCreateError, created;
      }
      var thread := new RecvThread(runnable);
      recvThread := thread;
      return true, "", created;
    }

    /** Brings the driver up as a client of `host`. A server-side request is
        refused with the client-only error and changes nothing; otherwise the
        socket is started on the URL's port (or the default one) and, if that
        succeeds, a fresh open connection bound to this driver becomes the
        server connection. On failure `error` holds the reason and the
        pointers are cleaned up as StartSocket leaves them; on success it is
        left as the caller passed it. */
    method InitBase(initAsClient: bool, host: string, urlPort: int, platform: Platform, errorIn: string)
      returns (ok: bool, error: string)
      modifies this`socket, this`recvThread, this`recvRunnable, this`serverConnection
      ensures !initAsClient ==> !ok && error == ClientOnlyError
      ensures !initAsClient ==>
        socket == old(socket) && recvThread == old(recvThread) && recvRunnable == old(recvRunnable)
      ensures !initAsClient ==> serverConnection == old(serverConnection)
      ensures initAsClient ==> (ok <==> FirstFailure(platform) == None)
      ensures initAsClient && !ok ==> error == StartError(FirstFailure(platform).value)
      ensures initAsClient && !ok ==> serverConnection == old(serverConnection)
      ensures initAsClient && !ok && platform.hasSubsystem ==> socket == null
      ensures initAsClient && FirstFailure(platform) == Some(FindSubsystem) ==> socket == old(socket)
      ensures initAsClient && !ok && FirstFailure(platform) != Some(CreateThread) ==>
        recvThread == old(recvThread) && recvRunnable == old(recvRunnable)
      ensures initAsClient && FirstFailure(platform) == Some(CreateThread) ==>
        recvThread == null && recvRunnable == null
      ensures ok ==> error == errorIn && Running()
      ensures ok ==> socket.remote == Some(Endpoint(host, EffectivePort(urlPort)))
      ensures ok ==> fresh(socket) && fresh(recvThread) && fresh(recvRunnable) && socket.sent == []
      ensures ok ==> recvRunnable.stream == [] && recvRunnable.expectedSize == 0 && recvRunnable.handoffs == []
      ensures ok ==> serverConnection != null && fresh(serverConnection)
      ensures ok ==> serverConnection.driver == this && serverConnection.open && serverConnection.delivered == []
    {
      if !initAsClient {
        return false, ClientOnlyError;
      }
      var port := EffectivePort(urlPort);
      var started, startError, _ := StartSocket(host, port, platform);
      if !started {
        return false, startError;
      }
      var conn := new UnitedNetConnection(this);
      serverConnection := conn;
      return true, errorIn;
    }

    /** Tears the socket down: the runnable is asked to stop, the thread is
        killed (waiting for it to end), and the socket is closed and destroyed;
        every pointer is cleared. Pointers already cleared are skipped, so a
        second call does nothing. */
    method StopSocket()
      modifies this`socket, this`recvThread, this`recvRunnable
      modifies (if recvRunnable == null then {} else {recvRunnable})`stop
      modifies (if recvThread == null then {} else {recvThread})`running
      modifies (if recvThread == null then {} else {recvThread.runnable})`stop
      modifies (if socket == null then {} else {socket})`closed
      modifies (if socket == null then {} else {socket})`connected
      modifies (if socket == null then {} else {socket})`destroyed
      ensures socket == null && recvThread == null && recvRunnable == null
      ensures old(recvRunnable) != null ==> old(recvRunnable).stop
      ensures old(recvThread) != null ==> old(recvThread).runnable.stop && !old(recvThread).running
      ensures old(socket) != null ==> old(socket).closed && old(socket).destroyed && !old(socket).connected
    {
      if recvRunnable != null {
        recvRunnable.Stop();
      }
      if recvThread != null {
        recvThread.Kill();
        recvThread := null;
      }
      if recvRunnable != null {
        recvRunnable := null;
      }
      if socket != null {
        socket.Close();
        socket.Destroy();
        socket := null;
      }
    }

    /** StopSocket, then the server connection, if any, is closed and cleared. */
    method Shutdown()
      modifies this`socket, this`recvThread, this`recvRunnable, this`serverConnection
      modifies (if recvRunnable == null then {} else {recvRunnable})`stop
      modifies (if recvThread == null then {} else {recvThread})`running
      modifies (if recvThread == null then {} else {recvThread.runnable})`stop
      modifies (if socket == null then {} else {socket})`closed
      modifies (if socket == null then {} else {socket})`connected
      modifies (if socket == null then {} else {socket})`destroyed
      modifies (if serverConnection == null then {} else {serverConnection})`open
      ensures socket == null && recvThread == null && recvRunnable == null && serverConnection == null
      ensures old(recvRunnable) != null ==> old(recvRunnable).stop
      ensures old(recvThread) != null ==> old(recvThread).runnable.stop && !old(recvThread).running
      ensures old(socket) != null ==> old(socket).closed && old(socket).destroyed && !old(socket).connected
      ensures old(serverConnection) != null ==> !old(serverConnection).open
    {
      StopSocket();
      if serverConnection != null {
        serverConnection.Close();
        serverConnection := null;
      }
    }

    /** A packet the receive thread posted reaches the server connection's
        receive path; with no server connection it is dropped. */
    method HandleIncomingPacket(packet: Packet)
      modifies (if serverConnection == null then {} else {serverConnection})`delivered
      ensures serverConnection != null ==>
        serverConnection.delivered == old(serverConnection.delivered) + [packet]
    {
      if serverConnection == null {
        return;
      }
      serverConnection.ReceivedRawPacket(packet);
    }

    /** Queues a packet for the next flush, after those already queued. */
    method EnqueueOutgoingPacket(packet: Packet)
      modifies this`outgoingPackets
      ensures outgoingPackets == old(outgoingPackets) + [packet]
    {
      outgoingPackets := outgoingPackets + [packet];
    }

    /** Empties the queue and sends each queued packet as one frame, in queue
        order. Without a socket the queued packets are dropped. */
    method FlushOutgoingSends()
      modifies this`outgoingPackets, (if socket == null then {} else {socket})`sent
      ensures outgoingPackets == []
      ensures socket == old(socket)
      ensures socket != null ==> socket.sent == old(socket.sent) + EncodeAll(old(outgoingPackets))
    {
      if |outgoingPackets| == 0 {
        return;
      }
      var localCopy := outgoingPackets;
      outgoingPackets := [];
      var i := 0;
      while i < |localCopy|
        invariant 0 <= i <= |localCopy|
        invariant outgoingPackets == []
        invariant socket != null ==> socket.sent == old(socket.sent) + EncodeAll(localCopy[..i])
      {
        if socket != null {
          var framed := Encode(localCopy[i]);
          socket.Send(framed);
          EncodeAllAppend(localCopy[..i], [localCopy[i]]);
          PrefixSnoc(localCopy, i);
          EncodeOne(localCopy[i]);
        }
        i := i + 1;
      }
      CutAt(localCopy, i);
    }

    /** The per-tick work of this driver: flush the outgoing queue. */
    method TickDispatch(deltaTime: real)
      modifies this`outgoingPackets, (if socket == null then {} else {socket})`sent
      ensures outgoingPackets == []
      ensures socket == old(socket)
      ensures socket != null ==> socket.sent == old(socket.sent) + EncodeAll(old(outgoingPackets))
    {
      FlushOutgoingSends();
    }
  }

  /** What the peer decodes from the bytes of successive flushes is every
      queued packet, in queue order, with nothing left over. */
  lemma FlushesDecodeInOrder(first: seq<Packet>, second: seq<Packet>)
    ensures Split(EncodeAll(first) + EncodeAll(second)) == Parse(first + second, [], false)
  {
    EncodeAllAppend(first, second);
    RoundTrip(first + second);
  }
}
