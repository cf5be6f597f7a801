/** What every call on a socket returns, and what a poll reports, told from the history alone:
    who connected to whom, what was written, taken, shut down and closed. */
module FakeSocketResults {
  import opened FakeSocketSpec
  import opened FakeSocketRuns

  predicate Sized(w: World) { |w.roles| == |w.table| == |w.logs| }

  predicate Numbered(w: World, fd: int) { 0 <= fd && fd / 2 < |w.roles| }

  function LogOf(w: World, fd: int): Log
    requires Sized(w) && Numbered(w, fd)
  {
    LogAt(w, fd / 2, fd % 2)
  }

  /** The number of the other end. */
  function Other(fd: int): int { if fd % 2 == 0 then fd + 1 else fd - 1 }

  /** The end was opened and has not been closed since. */
  predicate Open(w: World, fd: int)
    requires Sized(w)
  {
    && Numbered(w, fd) && !LogOf(w, fd).closed
    && (fd % 2 == 1 ==> w.roles[fd / 2] in {Accepted, Joined})
  }

  /** Pair i waits to be accepted by the listener. */
  predicate Waits(w: World, i: nat, fd: nat) {
    i < |w.roles| && w.roles[i] == Connecting(fd / 2)
  }

  ghost predicate SomeoneWaits(w: World, fd: int)
    requires fd >= 0
  {
    exists i: nat :: Waits(w, i, fd)
  }

  /** Reading has something to return: the next record, or the end of the stream because this end
      was shut down or the other closed, or because a record was taken after the other end was
      shut down. */
  predicate Pending(w: World, fd: int)
    requires Sized(w) && Numbered(w, fd)
  {
    var l := LogOf(w, fd);
    |l.taken| < |l.written| || l.shut || LogOf(w, Other(fd)).closed || l.late
  }

  /** What a call returns. */
  ghost predicate Returned(w: World, op: Operation, r: Result)
    requires Sized(w)
  {
    match op
    case Socket => r == Ok(2 * |w.roles|)
    case PipeFirst => r == Ok(2 * |w.roles|)
    case PipeSecond(fd) => r == Ok(fd + 1)
    case Listen(fd) =>
      r == if !Open(w, fd) then Fail(EBADF)
           else if fd % 2 == 1 || Open(w, fd + 1) then Fail(EISCONN)
           else if w.roles[fd / 2] == Listener then Fail(EIO)
           else Ok(0)
    case Connect(fd1, fd2) =>
      r == if !Numbered(w, fd1) || !Numbered(w, fd2) || fd1 / 2 == fd2 / 2 then Fail(EBADF)
           else if fd1 % 2 == 1 || fd2 % 2 == 1 then Fail(EISCONN)
           else if w.roles[fd2 / 2] != Listener || SomeoneWaits(w, fd2) then Fail(ECONNREFUSED)
           else Waiting
    case Connected(fd1) => r == if Open(w, fd1 + 1) then Ok(0) else Waiting
    case Accept(fd) =>
      if !Numbered(w, fd) then r == Fail(EBADF)
      else if fd % 2 == 1 then r == Fail(EISCONN)
      else if w.roles[fd / 2] != Listener then r == Fail(EIO)
      else if !SomeoneWaits(w, fd) then r == Waiting
      else exists i: nat :: Waits(w, i, fd) && r == Ok(2 * i + 1)
    case Read(fd, nbytes) =>
      r == if !Open(w, fd) then Fail(EBADF)
           else
             var l := LogOf(w, fd);
             if l.shut then Eof
             else if |l.taken| < |l.written| then
               var next := l.written[|l.taken|];
               if |next| <= nbytes then Data(next) else Fail(EAGAIN)
             else if Pending(w, fd) then Eof
             else Fail(EAGAIN)
    case Write(fd, record) =>
      r == if !Open(w, fd) then Fail(EBADF) else if LogOf(w, fd).shut then Fail(EPIPE) else Ok(|record|)
    case Shutdown(fd) =>
      r == if !Open(w, fd) then Fail(EBADF) else if !Open(w, Other(fd)) then Fail(ENOTCONN) else Ok(0)
    case Close(fd) => r == if Open(w, fd) then Ok(0) else Fail(EBADF)
  }

  /** Which ends are open, what they hold and whether they can be read, told from the table. */
  lemma EndTells(w: World, fd: int)
    requires Inv(w) && Numbered(w, fd) && Known(w, fd)
    ensures Sized(w) && Numbered(w, Other(fd)) && InTable(w.table, fd)
    ensures Mine(w.table, fd) == w.table[fd / 2].At(fd % 2) && Peer(w.table, fd) == w.table[fd / 2].At(1 - fd % 2)
    ensures Open(w, fd) <==> Mine(w.table, fd).fd != -1
    ensures Open(w, Other(fd)) <==> Peer(w.table, fd).fd != -1
    ensures Open(w, fd) ==> Mine(w.table, fd).fd == fd
    ensures Mine(w.table, fd).shutdown == LogOf(w, fd).shut && Peer(w.table, fd).shutdown == LogOf(w, Other(fd)).shut
    ensures Open(w, fd) ==>
      && LogOf(w, fd).written == LogOf(w, fd).taken + Mine(w.table, fd).buffer
      && (Mine(w.table, fd).readable <==> Pending(w, fd))
  {
    assert PairOk(w, fd / 2);
    assert Other(fd) / 2 == fd / 2 && Other(fd) % 2 == 1 - fd % 2;
  }

  lemma ListenerTells(w: World, fd: int)
    requires Inv(w) && Numbered(w, fd) && fd % 2 == 0
    ensures Sized(w) && InTable(w.table, fd)
    ensures w.table[fd / 2].listening <==> w.roles[fd / 2] == Listener
    ensures var c := w.table[fd / 2].connectingFd;
      && (c != -1 <==> SomeoneWaits(w, fd))
      && (c != -1 ==> InTable(w.table, c) && c % 2 == 0 && Waits(w, c / 2, fd) && w.table[c / 2].even.fd == c)
  {
    assert PairOk(w, fd / 2);
    var c := w.table[fd / 2].connectingFd;
    if c != -1 {
      assert PairOk(w, c / 2) && Waits(w, c / 2, fd);
    }
    if i: nat :| Waits(w, i, fd) {
      assert PairOk(w, i);
    }
  }

  lemma ReadTells(w: World, fd: int, nbytes: nat)
    requires Inv(w) && Known(w, fd)
    ensures Returned(w, Read(fd, nbytes), Do(w.table, Read(fd, nbytes)).result)
  {
    if Numbered(w, fd) {
      EndTells(w, fd);
      hide Inv, Open, Pending, LogOf, Mine, Peer;
      var l, buffer := LogOf(w, fd), Mine(w.table, fd).buffer;
      if Open(w, fd) && buffer != [] {
        assert l.written[|l.taken|] == buffer[0];
      }
    }
  }

  lemma EndCallTells(w: World, op: Operation)
    requires Inv(w) && Allowed(w, op) && (op.Write? || op.Shutdown? || op.Close?)
    ensures Returned(w, op, Do(w.table, op).result)
  {
    if Numbered(w, op.fd) {
      EndTells(w, op.fd);
      hide Inv, Open, Pending, LogOf, Mine, Peer, SetMine, SetPeer;
    }
  }

  lemma ListenTells(w: World, op: Operation)
    requires Inv(w) && Allowed(w, op) && op.Listen?
    ensures Returned(w, op, Do(w.table, op).result)
  {
    if Numbered(w, op.fd) {
      EndTells(w, op.fd);
      if op.fd % 2 == 0 {
        ListenerTells(w, op.fd);
      }
      hide Inv, Open, LogOf;
    }
  }

  lemma ConnectTells(w: World, op: Operation)
    requires Inv(w) && Allowed(w, op) && (op.Connect? || op.Accept?)
    ensures Returned(w, op, Do(w.table, op).result)
  {
    var fd := if op.Connect? then op.fd2 else op.fd;
    if Numbered(w, fd) && fd % 2 == 0 {
      ListenerTells(w, fd);
      hide Inv;
    }
  }

  lemma ConnectedTells(w: World, op: Operation)
    requires Inv(w) && Allowed(w, op) && (op.Connected? || op.PipeSecond?)
    ensures Returned(w, op, Do(w.table, op).result)
  {
    var fd := if op.Connected? then op.fd1 else op.fd;
    assert PairOk(w, fd / 2);
  }

  /** In every reachable state every call returns what the history says. */
  lemma ResultTells(w: World, op: Operation)
    requires Inv(w) && Allowed(w, op)
    ensures Returned(w, op, Do(w.table, op).result)
  {
    hide Inv, Returned, Do, Allowed;
    match op
    case Socket => NumbersTell(w, op);
    case PipeFirst => NumbersTell(w, op);
    case PipeSecond(_) => ConnectedTells(w, op);
    case Listen(_) => ListenTells(w, op);
    case Connect(_, _) => ConnectTells(w, op);
    case Connected(_) => ConnectedTells(w, op);
    case Accept(_) => ConnectTells(w, op);
    case Read(fd, nbytes) =>
      assert Known(w, fd) by { KnownToRead(w, fd, nbytes); }
      ReadTells(w, fd, nbytes);
    case Write(_, _) => EndCallTells(w, op);
    case Shutdown(_) => EndCallTells(w, op);
    case Close(_) => EndCallTells(w, op);
  }

  lemma NumbersTell(w: World, op: Operation)
    requires Inv(w) && (op.Socket? || op.PipeFirst?)
    ensures Returned(w, op, Do(w.table, op).result)
  {
  }

  lemma KnownToRead(w: World, fd: int, nbytes: nat)
    requires Inv(w) && Allowed(w, Read(fd, nbytes))
    ensures Known(w, fd)
  {
  }

  /** Who notifies the waiting threads: a connect that begins to wait, and an accept, write,
      shutdown or close that succeeds; no failure and no other call. */
  lemma WhoNotifies(w: World, op: Operation)
    requires Inv(w) && Allowed(w, op)
    ensures Sized(w)
    ensures Do(w.table, op).notify <==>
      match op
      case Connect(_, _) => Returned(w, op, Waiting)
      case Accept(fd) => Numbered(w, fd) && fd % 2 == 0 && w.roles[fd / 2] == Listener && SomeoneWaits(w, fd)
      case Write(fd, _) => Open(w, fd) && !LogOf(w, fd).shut
      case Shutdown(fd) => Open(w, fd) && Open(w, Other(fd))
      case Close(fd) => Open(w, fd)
      case _ => false
  {
    ResultTells(w, op);
    hide Inv, Open, LogOf, SomeoneWaits;
  }

  // ---- polling

  /** What a poll reports: a number that is not open as invalid; input exactly if reading has
      something to return, or someone waits to be accepted; output exactly if the other end is
      open and was not shut down; a hangup exactly if it was shut down. */
  lemma PollTells(w: World, p: PollFd)
    requires Inv(w) && Known(w, p.fd)
    ensures Sized(w)
    ensures PollOne(w.table, p) ==
      if !Open(w, p.fd) then Revents(true, false, false, false)
      else Revents(false,
                   p.wantIn && (Pending(w, p.fd) ||
                                (p.fd % 2 == 0 && w.roles[p.fd / 2] == Listener && SomeoneWaits(w, p.fd))),
                   p.wantOut && Open(w, Other(p.fd)) && !LogOf(w, Other(p.fd)).shut,
                   LogOf(w, Other(p.fd)).shut)
  {
    if Numbered(w, p.fd) {
      EndTells(w, p.fd);
      if p.fd % 2 == 0 {
        ListenerTells(w, p.fd);
      }
      hide Inv, Open, Pending, LogOf, Mine, Peer;
    }
  }

  /** So who waits for input on a socket that does not listen and then reads, with enough room,
      is never told to try again; and who is told to try again would have waited. */
  lemma InputMeansRead(w: World, p: PollFd, nbytes: nat)
    requires Inv(w) && Known(w, p.fd) && Numbered(w, p.fd) && p.wantIn && w.roles[p.fd / 2] != Listener
    requires Sized(w) && Open(w, p.fd)
    requires forall k :: 0 <= k < |LogOf(w, p.fd).written| ==> |LogOf(w, p.fd).written[k]| <= nbytes
    ensures PollOne(w.table, p).input <==> ReadStep(w.table, p.fd, nbytes).result != Fail(EAGAIN)
  {
    PollTells(w, p);
    ReadTells(w, p.fd, nbytes);
    hide Inv, PollOne, ReadStep, Open;
  }

  /** A socket that listens reports input exactly if someone waits to be accepted. */
  lemma InputMeansAccept(w: World, p: PollFd)
    requires Inv(w) && Numbered(w, p.fd) && p.fd % 2 == 0 && p.wantIn && w.roles[p.fd / 2] == Listener
    requires Sized(w) && Open(w, p.fd)
    ensures PollOne(w.table, p).input <==> SomeoneWaits(w, p.fd)
  {
    PollTells(w, p);
    assert PairOk(w, p.fd / 2);
    hide PollOne;
  }

  /** Where the other end was shut down and every record has been taken before, a poll reports a
      hangup but a read is told to try again: the end of the stream is not seen. */
  lemma ShutdownUnseen(w: World, p: PollFd, nbytes: nat)
    requires Inv(w) && Known(w, p.fd) && Numbered(w, p.fd) && Sized(w) && Open(w, p.fd)
    requires LogOf(w, Other(p.fd)).shut
    ensures PollOne(w.table, p).hangup
    ensures ReadStep(w.table, p.fd, nbytes).result == Fail(EAGAIN) <==>
      var l := LogOf(w, p.fd);
      && !l.shut
      && if |l.taken| < |l.written| then nbytes < |l.written[|l.taken|]|
         else !LogOf(w, Other(p.fd)).closed && !l.late
  {
    PollTells(w, p);
    ReadTells(w, p.fd, nbytes);
    hide Inv, PollOne, ReadStep, Open;
  }
}
