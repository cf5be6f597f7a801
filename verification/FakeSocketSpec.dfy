/** The in-process socket layer: each critical section is one step on the table of pairs. */
module FakeSocketSpec {

  type Record = seq<char>

  datatype End = End(fd: int, shutdown: bool, readable: bool, buffer: seq<Record>)

  datatype Pair = Pair(even: End, odd: End, listening: bool, connectingFd: int) {
    function At(k: nat): End { if k == 0 then even else odd }

    function With(k: nat, e: End): Pair {
      if k == 0 then this.(even := e) else this.(odd := e)
    }
  }

  type Table = seq<Pair>

  const NEW_END := End(-1, false, false, [])

  datatype Error = EBADF | EISCONN | EIO | ECONNREFUSED | EAGAIN | EPIPE | ENOTCONN

  /** What a step returns to its caller. Eof is the zero a read gives without taking a record. */
  datatype Result = Ok(value: int) | Data(record: Record) | Eof | Fail(error: Error) | Waiting

  /** The table after a step, its result, and whether waiting threads are notified. */
  datatype Outcome = Outcome(table: Table, result: Result, notify: bool)

  datatype Operation =
    | Socket                                  // fakeSocketSocket
    | PipeFirst                               // the allocation inside fakeSocketPipe2
    | PipeSecond(fd: int)                     // the rest of fakeSocketPipe2
    | Listen(fd: int)
    | Connect(fd1: int, fd2: int)             // up to the wait
    | Connected(fd1: int)                     // behind the wait
    | Accept(fd: int)                         // to the end; waits while nobody connects
    | Read(fd: int, nbytes: nat)
    | Write(fd: int, record: Record)
    | Shutdown(fd: int)
    | Close(fd: int)

  predicate InTable(t: Table, fd: int) { 0 <= fd && fd / 2 < |t| }

  /** The end a file descriptor stands for. */
  function Mine(t: Table, fd: int): End
    requires InTable(t, fd)
  {
    t[fd / 2].At(fd % 2)
  }

  function Peer(t: Table, fd: int): End
    requires InTable(t, fd)
  {
    t[fd / 2].At(1 - fd % 2)
  }

  function SetMine(t: Table, fd: int, e: End): Table
    requires InTable(t, fd)
  {
    t[fd / 2 := t[fd / 2].With(fd % 2, e)]
  }

  function SetPeer(t: Table, fd: int, e: End): Table
    requires InTable(t, fd)
  {
    t[fd / 2 := t[fd / 2].With(1 - fd % 2, e)]
  }

  function Failed(t: Table, e: Error): Outcome { Outcome(t, Fail(e), false) }

  function Allocate(t: Table): Outcome {
    Outcome(t + [Pair(NEW_END.(fd := 2 * |t|), NEW_END, false, -1)], Ok(2 * |t|), false)
  }

  function PipeSecondStep(t: Table, fd: int): Outcome
    requires InTable(t, fd)
  {
    var p := t[fd / 2];
    Outcome(t[fd / 2 := p.(odd := p.odd.(fd := p.even.fd + 1))], Ok(p.even.fd + 1), false)
  }

  function ListenStep(t: Table, fd: int): Outcome {
    if !InTable(t, fd) || Mine(t, fd).fd == -1 then Failed(t, EBADF)
    else if fd % 2 == 1 || t[fd / 2].odd.fd != -1 then Failed(t, EISCONN)
    else if t[fd / 2].listening then Failed(t, EIO)
    else Outcome(t[fd / 2 := t[fd / 2].(listening := true, connectingFd := -1)], Ok(0), false)
  }

  function ConnectStep(t: Table, fd1: int, fd2: int): Outcome {
    if !InTable(t, fd1) || !InTable(t, fd2) || fd1 / 2 == fd2 / 2 then Failed(t, EBADF)
    else if fd1 % 2 == 1 || fd2 % 2 == 1 then Failed(t, EISCONN)
    else if !t[fd2 / 2].listening || t[fd2 / 2].connectingFd != -1 then Failed(t, ECONNREFUSED)
    else Outcome(t[fd2 / 2 := t[fd2 / 2].(connectingFd := fd1)], Waiting, true)
  }

  /** The wait inside connect is over. */
  predicate ConnectReady(t: Table, fd1: int) {
    InTable(t, fd1) && t[fd1 / 2].odd.fd != -1
  }

  function ConnectedStep(t: Table, fd1: int): Outcome {
    if ConnectReady(t, fd1) then Outcome(t, Ok(0), false) else Outcome(t, Waiting, false)
  }

  /** The wait inside accept is over. */
  predicate AcceptReady(t: Table, fd: int) {
    InTable(t, fd) && t[fd / 2].connectingFd != -1
  }

  function AcceptStep(t: Table, fd: int): Outcome {
    if !InTable(t, fd) then Failed(t, EBADF)
    else if fd % 2 == 1 then Failed(t, EISCONN)
    else if !t[fd / 2].listening then Failed(t, EIO)
    else if !AcceptReady(t, fd) || !InTable(t, t[fd / 2].connectingFd) then Outcome(t, Waiting, false)
    else
      var other := t[fd / 2].connectingFd;
      var cleared := t[fd / 2 := t[fd / 2].(connectingFd := -1)];
      var p2 := cleared[other / 2];
      Outcome(cleared[other / 2 := p2.(odd := p2.odd.(fd := p2.even.fd + 1))], Ok(p2.even.fd + 1), true)
  }

  function ReadStep(t: Table, fd: int, nbytes: nat): Outcome {
    if !InTable(t, fd) || Mine(t, fd).fd == -1 then Failed(t, EBADF)
    else
      var me, peer := Mine(t, fd), Peer(t, fd);
      if me.shutdown then Outcome(t, Eof, false)
      else if !me.readable then Failed(t, EAGAIN)
      else if me.buffer != [] && nbytes < |me.buffer[0]| then Failed(t, EAGAIN)
      else
        var rest := if me.buffer == [] then [] else me.buffer[1..];
        var readable := peer.fd == -1 || peer.shutdown || (if rest == [] then false else me.readable);
        Outcome(SetMine(t, fd, me.(buffer := rest, readable := readable)),
                if me.buffer == [] then Eof else Data(me.buffer[0]), false)
  }

  function WriteStep(t: Table, fd: int, record: Record): Outcome {
    if !InTable(t, fd) || Mine(t, fd).fd == -1 then Failed(t, EBADF)
    else if Mine(t, fd).shutdown then Failed(t, EPIPE)
    else
      var peer := Peer(t, fd);
      Outcome(SetPeer(t, fd, peer.(buffer := peer.buffer + [record], readable := true)), Ok(|record|), true)
  }

  function ShutdownStep(t: Table, fd: int): Outcome {
    if !InTable(t, fd) || Mine(t, fd).fd == -1 then Failed(t, EBADF)
    else if Peer(t, fd).fd == -1 then Failed(t, ENOTCONN)
    else Outcome(SetMine(t, fd, Mine(t, fd).(shutdown := true, readable := true)), Ok(0), true)
  }

  function CloseStep(t: Table, fd: int): Outcome {
    if !InTable(t, fd) || Mine(t, fd).fd == -1 then Failed(t, EBADF)
    else
      var t1 := SetMine(t, fd, Mine(t, fd).(fd := -1, buffer := []));
      Outcome(SetPeer(t1, fd, Peer(t1, fd).(readable := true)), Ok(0), true)
  }

  function Do(t: Table, op: Operation): Outcome
    requires op.PipeSecond? ==> InTable(t, op.fd)
  {
    match op
    case Socket => Allocate(t)
    case PipeFirst => Allocate(t)
    case PipeSecond(fd) => PipeSecondStep(t, fd)
    case Listen(fd) => ListenStep(t, fd)
    case Connect(fd1, fd2) => ConnectStep(t, fd1, fd2)
    case Connected(fd1) => ConnectedStep(t, fd1)
    case Accept(fd) => AcceptStep(t, fd)
    case Read(fd, nbytes) => ReadStep(t, fd, nbytes)
    case Write(fd, record) => WriteStep(t, fd, record)
    case Shutdown(fd) => ShutdownStep(t, fd)
    case Close(fd) => CloseStep(t, fd)
  }

  // ---- polling

  datatype PollFd = PollFd(fd: int, wantIn: bool, wantOut: bool)

  datatype Revents = Revents(invalid: bool, input: bool, output: bool, hangup: bool)

  const NO_EVENTS := Revents(false, false, false, false)

  function PollOne(t: Table, p: PollFd): Revents {
    if !InTable(t, p.fd) || Mine(t, p.fd).fd == -1 then NO_EVENTS.(invalid := true)
    else
      var me, peer, pair := Mine(t, p.fd), Peer(t, p.fd), t[p.fd / 2];
      Revents(false,
              p.wantIn && (me.readable || (p.fd % 2 == 0 && pair.listening && pair.connectingFd != -1)),
              p.wantOut && peer.fd != -1 && !peer.shutdown,
              peer.shutdown)
  }

  predicate Ready(t: Table, p: PollFd) { PollOne(t, p) != NO_EVENTS }
}
