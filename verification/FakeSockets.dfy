/** The socket table as shared mutable state: every method is one critical section. */
module FakeSockets {
  import opened FakeSocketSpec

  class FakeSockets {
    var fds: Table
    var notified: bool   // whether the last critical section notified the waiting threads

    constructor ()
      ensures fds == [] && !notified
    {
      fds, notified := [], false;
    }

    /** The state and result are those of the specified step. */
    twostate predicate Did(o: Outcome, r: Result)
      reads this
    {
      fds == o.table && notified == o.notify && r == o.result
    }

    method Allocate() returns (r: Result)
      modifies this
      ensures Did(FakeSocketSpec.Allocate(old(fds)), r)
    {
      var i := |fds|;
      fds := fds + [Pair(NEW_END, NEW_END, false, -1)];
      var result := fds[i];
      fds := fds[i := result.(even := result.even.(fd := i * 2))];
      notified := false;
      r := Ok(i * 2);
    }

    /** The second critical section of pipe2. */
    method PipeSecond(fd: int) returns (r: Result)
      requires InTable(fds, fd)
      modifies this
      ensures Did(PipeSecondStep(old(fds), fd), r)
    {
      var pair := fds[fd / 2];
      pair := pair.(odd := pair.odd.(fd := pair.even.fd + 1));
      fds := fds[fd / 2 := pair];
      notified := false;
      r := Ok(pair.odd.fd);
    }

    method Listen(fd: int) returns (r: Result)
      modifies this
      ensures Did(ListenStep(old(fds), fd), r)
    {
      notified := false;
      if fd < 0 || fd / 2 >= |fds| || fds[fd / 2].At(fd % 2).fd == -1 {
        return Fail(EBADF);
      }
      var pair := fds[fd / 2];
      if fd % 2 == 1 || pair.odd.fd != -1 {
        return Fail(EISCONN);
      }
      if pair.listening {
        return Fail(EIO);
      }
      pair := pair.(listening := true);
      pair := pair.(connectingFd := -1);
      fds := fds[fd / 2 := pair];
      r := Ok(0);
    }

    /** connect up to its wait. */
    method Connect(fd1: int, fd2: int) returns (r: Result)
      modifies this
      ensures Did(ConnectStep(old(fds), fd1, fd2), r)
    {
      notified := false;
      if fd1 < 0 || fd2 < 0 || fd1 / 2 >= |fds| || fd2 / 2 >= |fds| {
        return Fail(EBADF);
      }
      if fd1 / 2 == fd2 / 2 {
        return Fail(EBADF);
      }
      var pair2 := fds[fd2 / 2];
      if fd1 % 2 == 1 || fd2 % 2 == 1 {
        return Fail(EISCONN);
      }
      if !pair2.listening || pair2.connectingFd != -1 {
        return Fail(ECONNREFUSED);
      }
      fds := fds[fd2 / 2 := pair2.(connectingFd := fd1)];
      notified := true;
      r := Waiting;
    }

    /** accept; waits while nobody connects. The asserted facts about the connecting socket are
        those every reachable state has. */
    method Accept(fd: int) returns (r: Result)
      requires AcceptReady(fds, fd) ==>
        var c := fds[fd / 2].connectingFd;
        InTable(fds, c) && c % 2 == 0 && fds[c / 2].odd.fd == -1 && fds[c / 2].even.fd == c
      modifies this
      ensures Did(AcceptStep(old(fds), fd), r)
    {
      notified := false;
      if fd < 0 || fd / 2 >= |fds| {
        return Fail(EBADF);
      }
      if fd % 2 == 1 {
        return Fail(EISCONN);
      }
      var pair := fds[fd / 2];
      if !pair.listening {
        return Fail(EIO);
      }
      if pair.connectingFd == -1 {
        return Waiting;
      }
      assert pair.connectingFd >= 0 && pair.connectingFd / 2 < |fds| && pair.connectingFd % 2 == 0;
      var other := pair.connectingFd / 2;
      assert fds[other].odd.fd == -1 && fds[other].even.fd == pair.connectingFd;
      fds := fds[fd / 2 := pair.(connectingFd := -1)];
      var pair2 := fds[other];
      pair2 := pair2.(odd := pair2.odd.(fd := pair2.even.fd + 1));
      fds := fds[other := pair2];
      notified := true;
      r := Ok(pair2.odd.fd);
    }

    method Read(fd: int, nbytes: nat) returns (r: Result)
      modifies this
      ensures Did(ReadStep(old(fds), fd, nbytes), r)
    {
      notified := false;
      if fd < 0 || fd / 2 >= |fds| {
        return Fail(EBADF);
      }
      var pair, k, n := fds[fd / 2], fd % 2, 1 - fd % 2;
      if pair.At(k).fd == -1 {
        return Fail(EBADF);
      }
      if pair.At(k).shutdown {
        return Eof;
      }
      if !pair.At(k).readable {
        return Fail(EAGAIN);
      }
      r := Eof;
      if |pair.At(k).buffer| > 0 {
        var record := pair.At(k).buffer[0];
        if nbytes < |record| {
          return Fail(EAGAIN);
        }
        r := Data(record);
        pair := pair.With(k, pair.At(k).(buffer := pair.At(k).buffer[1..]));
      }
      // If the peer is closed or shut down, this end stays readable.
      if pair.At(n).fd == -1 || pair.At(n).shutdown {
        pair := pair.With(k, pair.At(k).(readable := true));
      } else if pair.At(k).buffer == [] {
        pair := pair.With(k, pair.At(k).(readable := false));
      }
      fds := fds[fd / 2 := pair];
    }

    method Write(fd: int, record: Record) returns (r: Result)
      modifies this
      ensures Did(WriteStep(old(fds), fd, record), r)
    {
      notified := false;
      if fd < 0 || fd / 2 >= |fds| {
        return Fail(EBADF);
      }
      var pair, k, n := fds[fd / 2], fd % 2, 1 - fd % 2;
      if pair.At(k).fd == -1 {
        return Fail(EBADF);
      }
      if pair.At(k).shutdown {
        return Fail(EPIPE);
      }
      pair := pair.With(n, pair.At(n).(buffer := pair.At(n).buffer + [record]));
      pair := pair.With(n, pair.At(n).(readable := true));
      fds := fds[fd / 2 := pair];
      notified := true;
      r := Ok(|record|);
    }

    method Shutdown(fd: int) returns (r: Result)
      modifies this
      ensures Did(ShutdownStep(old(fds), fd), r)
    {
      notified := false;
      if fd < 0 || fd / 2 >= |fds| {
        return Fail(EBADF);
      }
      var pair, k, n := fds[fd / 2], fd % 2, 1 - fd % 2;
      if pair.At(k).fd == -1 {
        return Fail(EBADF);
      }
      if pair.At(n).fd == -1 {
        return Fail(ENOTCONN);
      }
      pair := pair.With(k, pair.At(k).(shutdown := true));
      pair := pair.With(k, pair.At(k).(readable := true));
      fds := fds[fd / 2 := pair];
      notified := true;
      r := Ok(0);
    }

    method Close(fd: int) returns (r: Result)
      modifies this
      ensures Did(CloseStep(old(fds), fd), r)
    {
      notified := false;
      if fd < 0 || fd / 2 >= |fds| {
        return Fail(EBADF);
      }
      var pair, k, n := fds[fd / 2], fd % 2, 1 - fd % 2;
      if pair.At(k).fd == -1 {
        return Fail(EBADF);
      }
      pair := pair.With(k, pair.At(k).(fd := -1));
      pair := pair.With(k, pair.At(k).(buffer := []));
      pair := pair.With(n, pair.At(n).(readable := true));
      fds := fds[fd / 2 := pair];
      notified := true;
      r := Ok(0);
    }

    /** checkForPoll: fills in what happened at each socket, and tells whether anything did. */
    method CheckForPoll(pollfds: seq<PollFd>, revents: array<Revents>) returns (retval: bool)
      requires revents.Length == |pollfds|
      modifies revents
      ensures forall i :: 0 <= i < |pollfds| ==> revents[i] == PollOne(fds, pollfds[i])
      ensures retval <==> exists i :: 0 <= i < |pollfds| && Ready(fds, pollfds[i])
    {
      retval := false;
      for i := 0 to |pollfds|
        invariant forall j :: 0 <= j < i ==> revents[j] == PollOne(fds, pollfds[j])
        invariant retval <==> exists j :: 0 <= j < i && Ready(fds, pollfds[j])
      {
        var p := pollfds[i];
        if p.fd < 0 || p.fd / 2 >= |fds| {
          revents[i] := NO_EVENTS.(invalid := true);
          retval := true;
        } else if fds[p.fd / 2].At(p.fd % 2).fd == -1 {
          revents[i] := NO_EVENTS.(invalid := true);
          retval := true;
        } else {
          revents[i] := NO_EVENTS;
          var pair, k, n := fds[p.fd / 2], p.fd % 2, 1 - p.fd % 2;
          if p.wantIn {
            if pair.At(k).readable || (k == 0 && pair.listening && pair.connectingFd != -1) {
              revents[i] := revents[i].(input := true);
              retval := true;
            }
          }
          if p.wantOut {
            if pair.At(n).fd != -1 && !pair.At(n).shutdown {
              revents[i] := revents[i].(output := true);
              retval := true;
            }
          }
          if pair.At(n).shutdown {
            revents[i] := revents[i].(hangup := true);
            retval := true;
          }
        }
      }
    }
  }
}
