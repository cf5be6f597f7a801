/** Every interleaving of threads that use the socket layer as documented: records arrive in
    order and exactly once, nobody sleeps through what he waits for, and the assertions in
    the code hold. */
module FakeSocketRuns {
  import opened FakeSocketSpec

  /** What a pair is used for. A socket either connects once or listens. */
  datatype Role =
    | Creating                 // inside pipe2; nobody else knows the number yet
    | Unused
    | Listener
    | Connecting(to: nat)      // inside connect, waiting to be accepted by pair `to`
    | Accepted                 // accepted, but connect has not returned yet
    | Joined

  /** Everything that happened at one end: the records written towards it and taken there, whether
      one was taken after the other end was shut down, whether it was shut down or closed. */
  datatype Log = Log(written: seq<Record>, taken: seq<Record>, late: bool, shut: bool, closed: bool)

  datatype World = World(table: Table, roles: seq<Role>, logs: seq<(Log, Log)>)

  const NEW_LOG := Log([], [], false, false, false)

  function LogAt(w: World, i: nat, k: nat): Log
    requires i < |w.logs|
  {
    if k == 0 then w.logs[i].0 else w.logs[i].1
  }

  function SetLog(logs: seq<(Log, Log)>, i: nat, k: nat, l: Log): seq<(Log, Log)>
    requires i < |logs|
  {
    logs[i := if k == 0 then (l, logs[i].1) else (logs[i].0, l)]
  }

  predicate Known(w: World, fd: int) {
    InTable(w.table, fd) && fd / 2 < |w.roles| ==> w.roles[fd / 2] != Creating
  }

  /** The documented usage. */
  predicate Allowed(w: World, op: Operation)
    requires |w.roles| == |w.table| == |w.logs|
  {
    match op
    case Socket => true
    case PipeFirst => true
    case PipeSecond(fd) => InTable(w.table, fd) && fd % 2 == 0 && w.roles[fd / 2] == Creating
    case Listen(fd) => InTable(w.table, fd) ==> w.roles[fd / 2] in {Unused, Listener}
    case Connect(fd1, fd2) =>
      Known(w, fd2) && (InTable(w.table, fd1) ==> w.roles[fd1 / 2] == Unused && w.table[fd1 / 2].even.fd != -1)
    case Connected(fd1) =>
      InTable(w.table, fd1) && fd1 % 2 == 0 && (w.roles[fd1 / 2].Connecting? || w.roles[fd1 / 2] == Accepted)
    case Accept(fd) => Known(w, fd)
    case Read(fd, _) => Known(w, fd)
    case Write(fd, _) => Known(w, fd)
    case Shutdown(fd) => Known(w, fd)
    case Close(fd) =>
      Known(w, fd)
      && (InTable(w.table, fd) && fd % 2 == 0 ==> !w.roles[fd / 2].Connecting? && w.roles[fd / 2] != Accepted)
  }

  function NextRoles(w: World, op: Operation, o: Outcome): seq<Role>
    requires |w.roles| == |w.table| == |w.logs| && Allowed(w, op)
  {
    match op
    case Socket => w.roles + [Unused]
    case PipeFirst => w.roles + [Creating]
    case PipeSecond(fd) => w.roles[fd / 2 := Joined]
    case Listen(fd) => if o.result.Ok? && InTable(w.table, fd) then w.roles[fd / 2 := Listener] else w.roles
    case Connect(fd1, fd2) =>
      if o.result.Waiting? && InTable(w.table, fd1) && InTable(w.table, fd2)
      then w.roles[fd1 / 2 := Connecting(fd2 / 2)] else w.roles
    case Connected(fd1) => if o.result.Ok? then w.roles[fd1 / 2 := Joined] else w.roles
    case Accept(fd) =>
      if o.result.Ok? && InTable(w.table, fd) && InTable(w.table, w.table[fd / 2].connectingFd)
      then w.roles[w.table[fd / 2].connectingFd / 2 := Accepted] else w.roles
    case _ => w.roles
  }

  function NextLogs(w: World, op: Operation, o: Outcome): seq<(Log, Log)>
    requires |w.roles| == |w.table| == |w.logs|
  {
    match op
    case Socket => w.logs + [(NEW_LOG, NEW_LOG)]
    case PipeFirst => w.logs + [(NEW_LOG, NEW_LOG)]
    case Read(fd, _) =>
      if o.result.Data? && InTable(w.table, fd) then
        var l := LogAt(w, fd / 2, fd % 2);
        var late := l.late || LogAt(w, fd / 2, 1 - fd % 2).shut;
        SetLog(w.logs, fd / 2, fd % 2, l.(taken := l.taken + [o.result.record], late := late))
      else w.logs
    case Write(fd, record) =>
      if o.result.Ok? && InTable(w.table, fd) then
        var l := LogAt(w, fd / 2, 1 - fd % 2);
        SetLog(w.logs, fd / 2, 1 - fd % 2, l.(written := l.written + [record]))
      else w.logs
    case Shutdown(fd) =>
      if o.result.Ok? && InTable(w.table, fd) then
        SetLog(w.logs, fd / 2, fd % 2, LogAt(w, fd / 2, fd % 2).(shut := true))
      else w.logs
    case Close(fd) =>
      if o.result.Ok? && InTable(w.table, fd) then
        SetLog(w.logs, fd / 2, fd % 2, LogAt(w, fd / 2, fd % 2).(closed := true))
      else w.logs
    case _ => w.logs
  }

  function Next(w: World, op: Operation): World
    requires |w.roles| == |w.table| == |w.logs| && Allowed(w, op)
  {
    var o := Do(w.table, op);
    World(o.table, NextRoles(w, op, o), NextLogs(w, op, o))
  }

  // ---- what every reachable state satisfies

  /** One end: a non-empty buffer is readable, and unless the end was closed, what was written
      towards it is what was taken there followed by its buffer, and it is readable exactly if
      something is buffered, it was shut down, the other end was closed, or a record was taken
      after the other end was shut down. */
  predicate EndOk(e: End, l: Log, other: Log) {
    && (e.buffer != [] ==> e.readable)
    && (!l.closed ==> l.written == l.taken + e.buffer)
    && (!l.closed ==> (e.readable <==> e.buffer != [] || l.shut || other.closed || l.late))
    && (e.shutdown <==> l.shut) && (l.late ==> other.shut)
    && (l.closed ==> e.fd == -1)
  }

  predicate FdsOk(i: nat, p: Pair, role: Role) {
    && p.even.fd in {-1, 2 * i}
    && p.odd.fd in {-1, 2 * i + 1}
    && (p.odd.fd != -1 ==> role in {Accepted, Joined})
    && (role in {Creating, Accepted} || role.Connecting? ==> p.even.fd == 2 * i)
    && (p.listening <==> role == Listener)
  }

  /** A listener's connecting number belongs to the one socket that waits for it. */
  predicate ConnectingOk(w: World, i: nat)
    requires |w.roles| == |w.table| == |w.logs| && i < |w.table|
  {
    && (var c := w.table[i].connectingFd;
        c != -1 ==> InTable(w.table, c) && c % 2 == 0 && w.table[i].listening && w.roles[c / 2] == Connecting(i))
    && (w.roles[i].Connecting? ==> w.roles[i].to < |w.table| && w.table[w.roles[i].to].connectingFd == 2 * i)
  }

  /** What concerns one pair alone. An accepted end is open until it is closed. */
  predicate LocalOk(i: nat, p: Pair, role: Role, logs: (Log, Log)) {
    && FdsOk(i, p, role)
    && EndOk(p.even, logs.0, logs.1) && EndOk(p.odd, logs.1, logs.0)
    && (!logs.0.closed ==> p.even.fd == 2 * i)
    && (role !in {Accepted, Joined} ==> !logs.0.shut && !logs.0.late && !logs.1.shut && logs.0.written == [])
    && (logs.1.closed ==> role in {Accepted, Joined})
    && (role in {Accepted, Joined} && !logs.1.closed ==> p.odd.fd == 2 * i + 1)
  }

  /** All of this for one pair. */
  predicate PairOk(w: World, i: nat)
    requires |w.roles| == |w.table| == |w.logs| && i < |w.table|
  {
    LocalOk(i, w.table[i], w.roles[i], w.logs[i]) && ConnectingOk(w, i)
  }

  ghost predicate Inv(w: World) {
    && |w.roles| == |w.table| == |w.logs|
    && forall i :: 0 <= i < |w.table| ==> PairOk(w, i)
  }

  /** Nothing changed about who connects and who listens. */
  lemma ConnectingSame(w: World, n: World, i: nat)
    requires |w.roles| == |w.table| == |w.logs| == |n.table| == |n.logs| && n.roles == w.roles
    requires forall j :: 0 <= j < |w.table| ==>
               n.table[j].connectingFd == w.table[j].connectingFd && n.table[j].listening == w.table[j].listening
    requires i < |w.table| && ConnectingOk(w, i)
    ensures ConnectingOk(n, i)
  {
  }

  lemma AllocateKeepsInv(w: World, op: Operation)
    requires Inv(w) && Allowed(w, op) && (op.Socket? || op.PipeFirst?)
    ensures Inv(Next(w, op))
  {
    var n := Next(w, op);
    forall i | 0 <= i < |n.table|
      ensures PairOk(n, i)
    {
      if i < |w.table| {
        assert PairOk(w, i);
      }
    }
  }

  lemma PipeSecondKeepsInv(w: World, op: Operation)
    requires Inv(w) && Allowed(w, op) && op.PipeSecond?
    ensures Inv(Next(w, op))
  {
    var n := Next(w, op);
    if InTable(w.table, op.fd) {
      assert PairOk(w, op.fd / 2);
    }
    forall i | 0 <= i < |n.table|
      ensures PairOk(n, i)
    {
      if i < |w.table| {
        assert PairOk(w, i);
      }
    }
  }

  lemma ListenKeepsInv(w: World, op: Operation)
    requires Inv(w) && Allowed(w, op) && op.Listen?
    ensures Inv(Next(w, op))
  {
    var n := Next(w, op);
    if InTable(w.table, op.fd) {
      assert PairOk(w, op.fd / 2);
    }
    forall i | 0 <= i < |n.table|
      ensures PairOk(n, i)
    {
      if i < |w.table| {
        assert PairOk(w, i);
      }
    }
  }

  lemma ConnectKeepsInv(w: World, op: Operation)
    requires Inv(w) && Allowed(w, op) && op.Connect?
    ensures Inv(Next(w, op))
  {
    var n := Next(w, op);
    if InTable(w.table, op.fd1) && InTable(w.table, op.fd2) {
      assert PairOk(w, op.fd1 / 2) && PairOk(w, op.fd2 / 2);
    }
    forall i | 0 <= i < |n.table|
      ensures PairOk(n, i)
    {
      if i < |w.table| {
        assert PairOk(w, i);
      }
    }
  }

  lemma ConnectedKeepsInv(w: World, op: Operation)
    requires Inv(w) && Allowed(w, op) && op.Connected?
    ensures Inv(Next(w, op))
  {
    var n := Next(w, op);
    assert PairOk(w, op.fd1 / 2);
    forall i | 0 <= i < |n.table|
      ensures PairOk(n, i)
    {
      if i < |w.table| {
        assert PairOk(w, i);
      }
    }
  }

  lemma AcceptKeepsInv(w: World, op: Operation)
    requires Inv(w) && Allowed(w, op) && op.Accept?
    ensures Inv(Next(w, op))
  {
    var n := Next(w, op);
    if InTable(w.table, op.fd) {
      assert PairOk(w, op.fd / 2);
    }
    forall i | 0 <= i < |n.table|
      ensures PairOk(n, i)
    {
      if i < |w.table| {
        assert PairOk(w, i);
      }
    }
  }

  /** Steps that change neither a role nor who connects. */
  predicate IsTransfer(op: Operation) { op.Read? || op.Write? || op.Shutdown? || op.Close? }

  lemma TransferFrame(w: World, op: Operation)
    requires |w.roles| == |w.table| == |w.logs| && Allowed(w, op) && IsTransfer(op)
    ensures var n := Next(w, op);
      && n.roles == w.roles && |n.table| == |w.table| == |n.logs|
      && (forall j :: 0 <= j < |w.table| ==>
            n.table[j].connectingFd == w.table[j].connectingFd && n.table[j].listening == w.table[j].listening)
      && (forall j :: 0 <= j < |w.table| && (j != op.fd / 2 || !InTable(w.table, op.fd)) ==>
            n.table[j] == w.table[j] && n.logs[j] == w.logs[j])
  {
  }

  lemma TransferPair(w: World, op: Operation)
    requires Inv(w) && Allowed(w, op) && IsTransfer(op) && InTable(w.table, op.fd)
    ensures var n, i := Next(w, op), op.fd / 2;
      |n.table| == |w.table| == |n.logs| && LocalOk(i, n.table[i], w.roles[i], n.logs[i])
  {
    assert PairOk(w, op.fd / 2);
    hide Inv, ConnectingOk;
    if op.Read? {
      ReadPair(w, op);
    } else if op.Write? {
      WritePair(w, op);
    }
  }

  lemma WritePair(w: World, op: Operation)
    requires |w.roles| == |w.table| == |w.logs| && Allowed(w, op) && op.Write? && InTable(w.table, op.fd)
    requires LocalOk(op.fd / 2, w.table[op.fd / 2], w.roles[op.fd / 2], w.logs[op.fd / 2])
    ensures var n, i := Next(w, op), op.fd / 2;
      |n.table| == |w.table| == |n.logs| && LocalOk(i, n.table[i], w.roles[i], n.logs[i])
  {
    var l := LogAt(w, op.fd / 2, 1 - op.fd % 2);
    var buffer := Peer(w.table, op.fd).buffer;
    assert l.taken + (buffer + [op.record]) == (l.taken + buffer) + [op.record];
  }

  lemma ReadPair(w: World, op: Operation)
    requires |w.roles| == |w.table| == |w.logs| && Allowed(w, op) && op.Read? && InTable(w.table, op.fd)
    requires LocalOk(op.fd / 2, w.table[op.fd / 2], w.roles[op.fd / 2], w.logs[op.fd / 2])
    ensures var n, i := Next(w, op), op.fd / 2;
      |n.table| == |w.table| == |n.logs| && LocalOk(i, n.table[i], w.roles[i], n.logs[i])
  {
    FrontTaken(LogAt(w, op.fd / 2, op.fd % 2).taken, Mine(w.table, op.fd).buffer);
  }

  lemma FrontTaken(taken: seq<Record>, buffer: seq<Record>)
    ensures buffer != [] ==> taken + [buffer[0]] + buffer[1..] == taken + buffer
  {
  }

  lemma TransferKeepsInv(w: World, op: Operation)
    requires Inv(w) && Allowed(w, op) && IsTransfer(op)
    ensures Inv(Next(w, op))
  {
    var n := Next(w, op);
    TransferFrame(w, op);
    if InTable(w.table, op.fd) {
      TransferPair(w, op);
    }
    hide Next, Allowed, ConnectingOk, LocalOk, IsTransfer;
    forall i | 0 <= i < |n.table|
      ensures PairOk(n, i)
    {
      assert PairOk(w, i);
      ConnectingSame(w, n, i);
    }
  }

  lemma StepKeepsInv(w: World, op: Operation)
    requires Inv(w) && Allowed(w, op)
    ensures Inv(Next(w, op))
  {
    hide Inv, Allowed, Next;
    match op
    case Socket => AllocateKeepsInv(w, op);
    case PipeFirst => AllocateKeepsInv(w, op);
    case PipeSecond(_) => PipeSecondKeepsInv(w, op);
    case Listen(_) => ListenKeepsInv(w, op);
    case Connect(_, _) => ConnectKeepsInv(w, op);
    case Connected(_) => ConnectedKeepsInv(w, op);
    case Accept(_) => AcceptKeepsInv(w, op);
    case Read(_, _) => TransferKeepsInv(w, op);
    case Write(_, _) => TransferKeepsInv(w, op);
    case Shutdown(_) => TransferKeepsInv(w, op);
    case Close(_) => TransferKeepsInv(w, op);
  }

  // ---- whole runs

  const EMPTY := World([], [], [])

  ghost predicate AllowedRun(w: World, ops: seq<Operation>)
    requires Inv(w)
    decreases |ops|
  {
    ops == [] ||
    (Allowed(w, ops[0]) && (StepKeepsInv(w, ops[0]); AllowedRun(Next(w, ops[0]), ops[1..])))
  }

  ghost function Run(w: World, ops: seq<Operation>): (end: World)
    requires Inv(w) && AllowedRun(w, ops)
    ensures Inv(end)
    decreases |ops|
  {
    if ops == [] then w
    else
      StepKeepsInv(w, ops[0]);
      Run(Next(w, ops[0]), ops[1..])
  }

  /** In every interleaving, the records written towards an end that was not closed are those
      taken there followed by its buffer, and a non-empty buffer is readable. */
  lemma InOrderExactlyOnce(ops: seq<Operation>, i: nat, k: nat)
    requires AllowedRun(EMPTY, ops)
    requires i < |Run(EMPTY, ops).table| && k < 2
    ensures var w := Run(EMPTY, ops);
      var e, l := w.table[i].At(k), LogAt(w, i, k);
      && (e.fd != -1 ==> !l.closed)
      && (!l.closed ==> l.written == l.taken + e.buffer)
      && (e.buffer != [] ==> e.readable)
  {
    assert PairOk(Run(EMPTY, ops), i);
  }

  // ---- the assertions in the code

  /** What accept asserts of the socket that connects. */
  lemma AcceptAssertions(w: World, fd: int)
    requires Inv(w) && AcceptReady(w.table, fd)
    ensures var c := w.table[fd / 2].connectingFd;
      && InTable(w.table, c) && c % 2 == 0
      && w.table[c / 2].odd.fd == -1 && w.table[c / 2].even.fd == c
  {
    assert PairOk(w, fd / 2);
    assert PairOk(w, w.table[fd / 2].connectingFd / 2);
  }

  /** What connect asserts when its wait is over. */
  lemma ConnectAssertion(w: World, fd1: int)
    requires Inv(w) && Allowed(w, Connected(fd1)) && ConnectReady(w.table, fd1)
    ensures w.table[fd1 / 2].odd.fd == w.table[fd1 / 2].even.fd + 1
  {
    assert PairOk(w, fd1 / 2);
  }

  /** What close and the state dump assert: open ends carry their own numbers, and a pair with
      an open odd end does not listen. */
  lemma NumberAssertions(w: World, i: nat)
    requires Inv(w) && i < |w.table|
    ensures w.table[i].even.fd != -1 ==> w.table[i].even.fd == 2 * i
    ensures w.table[i].odd.fd != -1 ==> w.table[i].odd.fd == 2 * i + 1 && !w.table[i].listening
  {
    assert PairOk(w, i);
  }

  // ---- waking up

  lemma TransferWakesPoll(w: World, op: Operation, p: PollFd)
    requires Inv(w) && Allowed(w, op) && IsTransfer(op) && Known(w, p.fd) && InTable(w.table, p.fd)
    ensures !Ready(w.table, p) && Ready(Do(w.table, op).table, p) ==> Do(w.table, op).notify
  {
    assert PairOk(w, p.fd / 2);
    hide Inv, ConnectingOk;
  }

  lemma PollWakes(w: World, op: Operation, p: PollFd)
    requires Inv(w) && Allowed(w, op) && Known(w, p.fd) && InTable(w.table, p.fd)
    ensures !Ready(w.table, p) && Ready(Do(w.table, op).table, p) ==> Do(w.table, op).notify
  {
    if IsTransfer(op) {
      TransferWakesPoll(w, op, p);
    } else {
      assert PairOk(w, p.fd / 2);
      match op
      case Listen(fd) => if InTable(w.table, fd) { assert PairOk(w, fd / 2); }
      case PipeSecond(fd) => assert PairOk(w, fd / 2);
      case _ =>
    }
  }

  lemma WaitsWake(w: World, op: Operation, fd: int)
    requires Inv(w) && Allowed(w, op) && Known(w, fd)
    ensures var o := Do(w.table, op);
      && (!ConnectReady(w.table, fd) && ConnectReady(o.table, fd) ==> o.notify)
      && (!AcceptReady(w.table, fd) && AcceptReady(o.table, fd) ==> o.notify)
  {
    if InTable(w.table, fd) {
      assert PairOk(w, fd / 2);
    }
  }

  /** Every step that makes a poll of a known socket, the wait in connect or the wait in
      accept succeed also notifies all waiting threads. A number not allocated yet polls as
      invalid at once, and no wait for it succeeds by being allocated. */
  lemma NoLostWakeUp(w: World, op: Operation, p: PollFd)
    requires Inv(w) && Allowed(w, op) && Known(w, p.fd)
    ensures var o := Do(w.table, op);
      && (!Ready(w.table, p) && Ready(o.table, p) ==> o.notify)
      && (!ConnectReady(w.table, p.fd) && ConnectReady(o.table, p.fd) ==> o.notify)
      && (!AcceptReady(w.table, p.fd) && AcceptReady(o.table, p.fd) ==> o.notify)
  {
    assert InTable(w.table, p.fd) || Ready(w.table, p);
    hide Do, Inv, Allowed, Ready, ConnectReady, AcceptReady;
    WaitsWake(w, op, p.fd);
    if InTable(w.table, p.fd) {
      PollWakes(w, op, p);
    }
  }

  // ---- when connect returns

  /** A connect that has been accepted gets out of its wait at once unless the end accepted
      for it has been closed. */
  lemma AcceptedIsReady(w: World, i: nat)
    requires Inv(w) && i < |w.table| && w.roles[i] == Accepted
    ensures ConnectReady(w.table, 2 * i) <==> !w.logs[i].1.closed
  {
    assert PairOk(w, i);
  }

  /** Steps after which the connect of pair i returns. */
  ghost predicate Returns(w: World, ops: seq<Operation>, i: nat)
    requires Inv(w)
  {
    && AllowedRun(w, ops)
    && var end := Run(w, ops);
       Allowed(end, Connected(2 * i)) && Do(end.table, Connected(2 * i)).result == Ok(0)
  }

  /** A connect that is waiting can still return, in some continuation, if and only if the end
      accepted for it was not closed. Before it is accepted there is no such end to close. */
  lemma ConnectReturnsUnlessClosed(w: World, i: nat)
    requires Inv(w) && i < |w.table| && (w.roles[i].Connecting? || w.roles[i] == Accepted)
    ensures (exists ops :: Returns(w, ops, i)) <==> !w.logs[i].1.closed
  {
    assert PairOk(w, i);
    if w.logs[i].1.closed {
      forall ops | AllowedRun(w, ops) ensures !Returns(w, ops, i) {
        ClosedBeforeConnectReturns(w, ops, i);
      }
    } else if w.roles[i] == Accepted {
      AcceptedIsReady(w, i);
      assert Returns(w, [], i);
    } else {
      AcceptThenReady(w, i);
    }
  }

  lemma AcceptThenReady(w: World, i: nat)
    requires Inv(w) && i < |w.table| && w.roles[i].Connecting?
    ensures exists ops :: Returns(w, ops, i)
  {
    assert PairOk(w, i);
    var op := Accept(2 * w.roles[i].to);
    assert PairOk(w, w.roles[i].to);
    var n := Next(w, op);
    assert Allowed(w, op) && n.roles[i] == Accepted && ConnectReady(n.table, 2 * i);
    StepKeepsInv(w, op);
    assert Allowed(n, Connected(2 * i)) && Do(n.table, Connected(2 * i)).result == Ok(0);
    hide Next, Do, Allowed, Inv;
    RunStep(w, op, []);
    assert [op] + [] == [op];
    assert Returns(w, [op], i);
  }

  /** Once the accepted end is closed, connect is left waiting for ever: no step opens that
      end again, and nobody else can end the wait. */
  lemma ClosedBeforeConnectReturns(w: World, ops: seq<Operation>, i: nat)
    requires Inv(w) && AllowedRun(w, ops)
    requires i < |w.table| && w.roles[i] == Accepted && w.logs[i].1.closed
    ensures var end := Run(w, ops);
      i < |end.table| && end.roles[i] == Accepted && end.logs[i].1.closed && !ConnectReady(end.table, 2 * i)
    decreases |ops|
  {
    if ops == [] {
      AcceptedIsReady(w, i);
    } else {
      StepKeepsInv(w, ops[0]);
      StuckStep(w, ops[0], i);
      ClosedBeforeConnectReturns(Next(w, ops[0]), ops[1..], i);
    }
  }

  lemma StuckStep(w: World, op: Operation, i: nat)
    requires Inv(w) && Allowed(w, op)
    requires i < |w.table| && w.roles[i] == Accepted && w.logs[i].1.closed
    ensures var n := Next(w, op);
      i < |n.table| && n.roles[i] == Accepted && n.logs[i].1.closed
  {
    assert PairOk(w, i);
    match op
    case Accept(fd) => if InTable(w.table, fd) { assert PairOk(w, fd / 2); }
    case _ =>
  }

  /** ... and such a state can be reached. */
  lemma ConnectCanBeLeftWaiting()
    ensures exists ops: seq<Operation> :: AllowedRun(EMPTY, ops)
              && var w := Run(EMPTY, ops); |w.table| == 2 && w.roles[1] == Accepted && w.logs[1].1.closed
  {
    var ops := [Socket, Socket, Listen(0), Connect(2, 0), Accept(0), Close(3)];
    var w1 := Next(EMPTY, ops[0]);
    StepKeepsInv(EMPTY, ops[0]);
    var w2 := Next(w1, ops[1]);
    StepKeepsInv(w1, ops[1]);
    var w3 := Next(w2, ops[2]);
    StepKeepsInv(w2, ops[2]);
    var w4 := Next(w3, ops[3]);
    StepKeepsInv(w3, ops[3]);
    var w5 := Next(w4, ops[4]);
    StepKeepsInv(w4, ops[4]);
    var w6 := Next(w5, ops[5]);
    StepKeepsInv(w5, ops[5]);
    hide Next, Allowed, Inv;
    RunStep(w5, ops[5], []);
    RunStep(w4, ops[4], [ops[5]]);
    RunStep(w3, ops[3], [ops[4], ops[5]]);
    RunStep(w2, ops[2], [ops[3], ops[4], ops[5]]);
    RunStep(w1, ops[1], [ops[2], ops[3], ops[4], ops[5]]);
    RunStep(EMPTY, ops[0], [ops[1], ops[2], ops[3], ops[4], ops[5]]);
    assert ops == [ops[0]] + [ops[1], ops[2], ops[3], ops[4], ops[5]];
  }

  lemma RunStep(w: World, op: Operation, rest: seq<Operation>)
    requires Inv(w) && Allowed(w, op) && Inv(Next(w, op)) && AllowedRun(Next(w, op), rest)
    ensures AllowedRun(w, [op] + rest) && Run(w, [op] + rest) == Run(Next(w, op), rest)
  {
    hide Allowed, Inv, Next;
    assert ([op] + rest)[1..] == rest;
  }
}
