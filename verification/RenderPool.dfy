/** The pool that encodes tiles in parallel, in every interleaving of its threads.

    Thread 0 is the one that pushes jobs and calls run; the others are workers, which may
    wake up at any time, notified or not. A job runs outside the pool's lock; its result is
    appended to the common output under a lock of its own. */
module RenderPool {

  type Bytes = seq<bv8>

  /** One tile to encode: its result, or a failed encoding that appends nothing. */
  datatype Job = Job(tile: nat, wireId: nat, encoded: bool, data: Bytes)

  datatype Slot = Idle | Running(job: Job, appended: bool)

  /** Whether thread 0 is inside run, and whether it decided to use the workers. */
  datatype Runner = Outside | Inside(useThreads: bool)

  /** What is noted of a rendered tile. */
  datatype Rendered = Rendered(tile: nat, wireId: nat, imgSize: nat)

  datatype Pool = Pool(
    work: seq<Job>,            // _work
    working: nat,              // _working
    slots: seq<Slot>,          // what each thread is doing
    runner: Runner,
    output: Bytes,             // output
    renderedTiles: seq<Rendered>)

  datatype Step =
    | Push(job: Job)
    | StartRun
    | Take(thread: nat)
    | Append(thread: nat)
    | Finish(thread: nat)
    | ReturnFromRun

  function NewPool(workers: nat): Pool {
    Pool([], 0, seq(workers + 1, _ => Idle), Outside, [], [])
  }

  predicate Enabled(p: Pool, s: Step) {
    match s
    case Push(_) => p.runner.Outside?
    case StartRun => p.runner.Outside?
    case Take(t) => t < |p.slots| && p.slots[t].Idle? && p.work != [] && (t == 0 ==> p.runner.Inside?)
    case Append(t) =>
      t < |p.slots| && p.slots[t].Running? && p.slots[t].job.encoded && !p.slots[t].appended
    case Finish(t) =>
      t < |p.slots| && p.slots[t].Running? && (p.slots[t].job.encoded ==> p.slots[t].appended) && p.working > 0
    case ReturnFromRun =>
      |p.slots| > 0 && p.slots[0].Idle? && p.runner.Inside? && p.work == [] && (p.runner.useThreads ==> p.working == 0)
  }

  function Next(p: Pool, s: Step): Pool
    requires Enabled(p, s)
  {
    match s
    case Push(job) => p.(work := p.work + [job])
    case StartRun => p.(runner := Inside(|p.slots| - 1 > 1 && |p.work| > 1))
    case Take(t) =>
      p.(work := p.work[1..], working := p.working + 1, slots := p.slots[t := Running(p.work[0], false)])
    case Append(t) =>
      var job := p.slots[t].job;
      p.(output := p.output + job.data,
         renderedTiles := p.renderedTiles + [Rendered(job.tile, job.wireId, |job.data|)],
         slots := p.slots[t := Running(job, true)])
    case Finish(t) => p.(working := p.working - 1, slots := p.slots[t := Idle])
    case ReturnFromRun => p.(runner := Outside)
  }

  // ---- the history of a run

  /** The jobs pushed, started, finished and appended so far, in order. */
  datatype History = History(pushed: seq<Job>, started: seq<Job>, finished: seq<Job>, appended: seq<Job>)

  const NOTHING := History([], [], [], [])

  function Record(p: Pool, h: History, s: Step): History
    requires Enabled(p, s)
  {
    match s
    case Push(job) => h.(pushed := h.pushed + [job])
    case Take(_) => h.(started := h.started + [p.work[0]])
    case Append(t) => h.(appended := h.appended + [p.slots[t].job])
    case Finish(t) => h.(finished := h.finished + [p.slots[t].job])
    case _ => h
  }

  function InFlight(slots: seq<Slot>): (jobs: seq<Job>)
    ensures |jobs| <= |slots|
  {
    if slots == [] then [] else (if slots[0].Running? then [slots[0].job] else []) + InFlight(slots[1..])
  }

  /** Jobs in flight whose result is already in the output. */
  function InOutput(slots: seq<Slot>): seq<Job> {
    if slots == [] then []
    else (if slots[0].Running? && slots[0].appended then [slots[0].job] else []) + InOutput(slots[1..])
  }

  function Encoded(jobs: seq<Job>): seq<Job> {
    if jobs == [] then [] else (if jobs[0].encoded then [jobs[0]] else []) + Encoded(jobs[1..])
  }

  function Join(jobs: seq<Job>): Bytes {
    if jobs == [] then [] else Join(jobs[..|jobs| - 1]) + jobs[|jobs| - 1].data
  }

  function Notes(jobs: seq<Job>): (notes: seq<Rendered>)
    ensures |notes| == |jobs|
    ensures forall i :: 0 <= i < |jobs| ==> notes[i] == Rendered(jobs[i].tile, jobs[i].wireId, |jobs[i].data|)
  {
    seq(|jobs|, i requires 0 <= i < |jobs| => Rendered(jobs[i].tile, jobs[i].wireId, |jobs[i].data|))
  }

  /** Thread 0 works on a job only inside run. */
  predicate PusherIdle(p: Pool) {
    |p.slots| > 0 && (p.runner.Outside? ==> p.slots[0].Idle?)
  }

  ghost predicate Inv(p: Pool, h: History) {
    Counted(p, h) && InOrder(p, h) && PusherIdle(p)
  }

  /** The jobs started are the first ones pushed. */
  ghost predicate InOrder(p: Pool, h: History) {
    h.pushed == h.started + p.work
  }

  ghost predicate Counted(p: Pool, h: History) {
    && multiset(h.pushed) == multiset(p.work) + multiset(InFlight(p.slots)) + multiset(h.finished)
    && p.working == |InFlight(p.slots)|
    && multiset(h.appended) == multiset(InOutput(p.slots)) + multiset(Encoded(h.finished))
    && p.output == Join(h.appended)
    && p.renderedTiles == Notes(h.appended)
    && (forall t :: 0 <= t < |p.slots| && p.slots[t].Running? && p.slots[t].appended ==> p.slots[t].job.encoded)
  }

  // ---- changing one slot

  lemma {:induction false} FlightSplit(a: seq<Slot>, b: seq<Slot>)
    ensures InFlight(a + b) == InFlight(a) + InFlight(b)
  {
    if a == [] {
      assert a + b == b;
    } else {
      assert (a + b)[1..] == a[1..] + b;
      FlightSplit(a[1..], b);
      var head := if a[0].Running? then [a[0].job] else [];
      assert head + (InFlight(a[1..]) + InFlight(b)) == (head + InFlight(a[1..])) + InFlight(b);
    }
  }

  lemma {:induction false} OutputSplit(a: seq<Slot>, b: seq<Slot>)
    ensures InOutput(a + b) == InOutput(a) + InOutput(b)
  {
    if a == [] {
      assert a + b == b;
    } else {
      assert (a + b)[1..] == a[1..] + b;
      OutputSplit(a[1..], b);
      var head := if a[0].Running? && a[0].appended then [a[0].job] else [];
      assert head + (InOutput(a[1..]) + InOutput(b)) == (head + InOutput(a[1..])) + InOutput(b);
    }
  }

  function Held(s: Slot): seq<Job> { if s.Running? then [s.job] else [] }
  function Out(s: Slot): seq<Job> { if s.Running? && s.appended then [s.job] else [] }

  lemma SlotAt(slots: seq<Slot>, t: nat, s: Slot)
    requires t < |slots|
    ensures InFlight(slots[t := s]) == InFlight(slots[..t]) + Held(s) + InFlight(slots[t + 1..])
    ensures InOutput(slots[t := s]) == InOutput(slots[..t]) + Out(s) + InOutput(slots[t + 1..])
  {
    assert slots[t := s] == slots[..t] + ([s] + slots[t + 1..]);
    SlotAlone(s);
    hide InFlight, InOutput;
    FlightSplit(slots[..t], [s] + slots[t + 1..]);
    FlightSplit([s], slots[t + 1..]);
    OutputSplit(slots[..t], [s] + slots[t + 1..]);
    OutputSplit([s], slots[t + 1..]);
  }

  lemma SlotAlone(s: Slot)
    ensures InFlight([s]) == Held(s) && InOutput([s]) == Out(s)
  {
    assert [s][1..] == [];
  }

  /** What one slot contributes, before and after a change. */
  lemma SlotChange(slots: seq<Slot>, t: nat, s: Slot)
    requires t < |slots|
    ensures multiset(InFlight(slots[t := s])) + multiset(Held(slots[t]))
         == multiset(InFlight(slots)) + multiset(Held(s))
    ensures multiset(InOutput(slots[t := s])) + multiset(Out(slots[t])) == multiset(InOutput(slots)) + multiset(Out(s))
    ensures |InFlight(slots[t := s])| + |Held(slots[t])| == |InFlight(slots)| + |Held(s)|
    ensures Held(s) == Held(slots[t]) ==> InFlight(slots[t := s]) == InFlight(slots)
    ensures Out(s) == Out(slots[t]) ==> InOutput(slots[t := s]) == InOutput(slots)
  {
    hide InFlight, InOutput;
    SlotAt(slots, t, s);
    SlotAt(slots, t, slots[t]);
    assert slots[t := slots[t]] == slots;
  }

  lemma {:induction false} EncodedAppend(jobs: seq<Job>, j: Job)
    ensures Encoded(jobs + [j]) == Encoded(jobs) + if j.encoded then [j] else []
  {
    var last := if j.encoded then [j] else [];
    if jobs == [] {
      assert [j][1..] == [] && jobs + [j] == [j];
    } else {
      var all := jobs + [j];
      assert all[0] == jobs[0] && all[1..] == jobs[1..] + [j];
      EncodedAppend(jobs[1..], j);
      var head := if jobs[0].encoded then [jobs[0]] else [];
      assert head + (Encoded(jobs[1..]) + last) == (head + Encoded(jobs[1..])) + last;
    }
  }

  lemma {:induction false} NewPoolInv(workers: nat)
    ensures Inv(NewPool(workers), NOTHING)
  {
    IdleSlots(NewPool(workers).slots);
  }

  lemma {:induction false} IdleSlots(slots: seq<Slot>)
    requires forall t :: 0 <= t < |slots| ==> slots[t].Idle?
    ensures InFlight(slots) == [] && InOutput(slots) == []
  {
    if slots != [] {
      IdleSlots(slots[1..]);
    }
  }

  lemma TakeKeepsCount(p: Pool, h: History, t: nat)
    requires Counted(p, h) && Enabled(p, Take(t))
    ensures Counted(Next(p, Take(t)), Record(p, h, Take(t)))
  {
    hide InFlight, InOutput, Encoded, Notes;
    var job, next := p.work[0], Next(p, Take(t));
    SlotChange(p.slots, t, Running(job, false));
    assert p.work == [job] + p.work[1..];
    assert multiset(p.work) == multiset{job} + multiset(next.work);
    assert multiset(InFlight(next.slots)) == multiset(InFlight(p.slots)) + multiset{job};
    assert InOutput(next.slots) == InOutput(p.slots);
  }

  lemma OutputGrows(jobs: seq<Job>, job: Job)
    ensures Join(jobs + [job]) == Join(jobs) + job.data
    ensures Notes(jobs + [job]) == Notes(jobs) + [Rendered(job.tile, job.wireId, |job.data|)]
  {
    assert (jobs + [job])[..|jobs|] == jobs;
  }

  lemma AppendKeepsCount(p: Pool, h: History, t: nat)
    requires Counted(p, h) && Enabled(p, Append(t))
    ensures Counted(Next(p, Append(t)), Record(p, h, Append(t)))
  {
    hide InFlight, InOutput, Encoded, Join, Notes;
    var job := p.slots[t].job;
    SlotChange(p.slots, t, Running(job, true));
    var next := Next(p, Append(t));
    assert InFlight(next.slots) == InFlight(p.slots);
    assert multiset(InOutput(next.slots)) == multiset(InOutput(p.slots)) + multiset{job};
    OutputGrows(h.appended, job);
  }

  lemma FinishKeepsJobs(p: Pool, h: History, t: nat)
    requires Counted(p, h) && Enabled(p, Finish(t))
    ensures var q, g := Next(p, Finish(t)), Record(p, h, Finish(t));
      && multiset(g.pushed) == multiset(q.work) + multiset(InFlight(q.slots)) + multiset(g.finished)
      && q.working == |InFlight(q.slots)|
  {
    hide InFlight, InOutput, Encoded, Join, Notes;
    var job, next := p.slots[t].job, Next(p, Finish(t));
    SlotChange(p.slots, t, Idle);
    MovedOn(multiset(h.pushed), multiset(p.work), multiset(InFlight(p.slots)), multiset(InFlight(next.slots)),
            multiset(h.finished), multiset{job});
    assert multiset(h.finished + [job]) == multiset(h.finished) + multiset{job};
  }

  lemma FinishKeepsOutput(p: Pool, h: History, t: nat)
    requires Counted(p, h) && Enabled(p, Finish(t))
    ensures var q, g := Next(p, Finish(t)), Record(p, h, Finish(t));
      multiset(g.appended) == multiset(InOutput(q.slots)) + multiset(Encoded(g.finished))
  {
    hide InFlight, InOutput, Encoded, Join, Notes;
    var job, next := p.slots[t].job, Next(p, Finish(t));
    var out := if job.encoded then [job] else [];
    SlotChange(p.slots, t, Idle);
    EncodedAppend(h.finished, job);
    MovedOn(multiset(h.appended), multiset{}, multiset(InOutput(p.slots)), multiset(InOutput(next.slots)),
            multiset(Encoded(h.finished)), multiset(out));
    assert multiset(Encoded(h.finished) + out) == multiset(Encoded(h.finished)) + multiset(out);
  }

  lemma FinishKeepsCount(p: Pool, h: History, t: nat)
    requires Counted(p, h) && Enabled(p, Finish(t))
    ensures Counted(Next(p, Finish(t)), Record(p, h, Finish(t)))
  {
    hide InFlight, InOutput, Encoded, Join, Notes;
    FinishKeepsJobs(p, h, t);
    FinishKeepsOutput(p, h, t);
  }

  /** What moves from one of three places to another stays one of all. */
  lemma MovedOn(all: multiset<Job>, work: multiset<Job>, flight: multiset<Job>, left: multiset<Job>,
                done: multiset<Job>, moved: multiset<Job>)
    requires all == work + flight + done && flight == left + moved
    ensures all == work + left + (done + moved)
  {
  }

  lemma RunnerKeepsCount(p: Pool, h: History, s: Step)
    requires Counted(p, h) && Enabled(p, s) && (s.Push? || s.StartRun? || s.ReturnFromRun?)
    ensures Counted(Next(p, s), Record(p, h, s))
  {
    hide InFlight, InOutput, Encoded, Notes;
  }

  lemma StepKeepsOrder(p: Pool, h: History, s: Step)
    requires InOrder(p, h) && Enabled(p, s)
    ensures InOrder(Next(p, s), Record(p, h, s))
  {
  }

  lemma PusherStaysIdle(p: Pool, s: Step)
    requires PusherIdle(p) && Enabled(p, s)
    ensures PusherIdle(Next(p, s))
  {
  }

  lemma StepKeepsInv(p: Pool, h: History, s: Step)
    requires Inv(p, h) && Enabled(p, s)
    ensures Inv(Next(p, s), Record(p, h, s))
  {
    PusherStaysIdle(p, s);
    StepKeepsOrder(p, h, s);
    hide Counted, InOrder, PusherIdle, Enabled, Next, Record;
    match s
    case Take(t) => TakeKeepsCount(p, h, t);
    case Append(t) => AppendKeepsCount(p, h, t);
    case Finish(t) => FinishKeepsCount(p, h, t);
    case _ => RunnerKeepsCount(p, h, s);
  }

  // ---- runs

  ghost predicate EnabledRun(p: Pool, steps: seq<Step>)
    decreases |steps|
  {
    steps == [] || (Enabled(p, steps[0]) && EnabledRun(Next(p, steps[0]), steps[1..]))
  }

  ghost function Run(p: Pool, h: History, steps: seq<Step>): (Pool, History)
    requires EnabledRun(p, steps)
    decreases |steps|
  {
    if steps == [] then (p, h) else Run(Next(p, steps[0]), Record(p, h, steps[0]), steps[1..])
  }

  lemma {:induction false} RunKeepsInv(p: Pool, h: History, steps: seq<Step>)
    requires EnabledRun(p, steps) && Inv(p, h)
    ensures Inv(Run(p, h, steps).0, Run(p, h, steps).1)
    decreases |steps|
  {
    hide Inv, Next, Record, Enabled;
    if steps != [] {
      StepKeepsInv(p, h, steps[0]);
      RunKeepsInv(Next(p, steps[0]), Record(p, h, steps[0]), steps[1..]);
    }
  }

  /** In every interleaving each pushed job is queued, in flight or finished, exactly once. */
  lemma EachJobRunsOnce(workers: nat, steps: seq<Step>)
    requires EnabledRun(NewPool(workers), steps)
    ensures var (p, h) := Run(NewPool(workers), NOTHING, steps);
      multiset(h.pushed) == multiset(p.work) + multiset(InFlight(p.slots)) + multiset(h.finished)
  {
    NewPoolInv(workers);
    RunKeepsInv(NewPool(workers), NOTHING, steps);
  }

  /** Jobs are started in the order in which they were pushed, whoever starts them. */
  lemma JobsStartInOrder(workers: nat, steps: seq<Step>)
    requires EnabledRun(NewPool(workers), steps)
    ensures var (p, h) := Run(NewPool(workers), NOTHING, steps);
      h.pushed == h.started + p.work
  {
    NewPoolInv(workers);
    RunKeepsInv(NewPool(workers), NOTHING, steps);
  }

  /** A run that uses the workers returns only when no job is queued or in flight: every job
      pushed has finished, and every tile that could be encoded is in the output, once. */
  lemma RunReturnsWhenAllDone(workers: nat, steps: seq<Step>)
    requires EnabledRun(NewPool(workers), steps)
    requires var (p, h) := Run(NewPool(workers), NOTHING, steps);
      Enabled(p, ReturnFromRun) && p.runner.useThreads
    ensures var (p, h) := Run(NewPool(workers), NOTHING, steps);
      && p.work == [] && InFlight(p.slots) == []
      && multiset(h.finished) == multiset(h.pushed)
      && multiset(h.appended) == multiset(Encoded(h.finished))
  {
    NewPoolInv(workers);
    RunKeepsInv(NewPool(workers), NOTHING, steps);
    var (p, h) := Run(NewPool(workers), NOTHING, steps);
    NothingInOutput(p.slots);
  }

  lemma {:induction false} NothingInOutput(slots: seq<Slot>)
    requires InFlight(slots) == []
    ensures InOutput(slots) == []
  {
    if slots != [] {
      NothingInOutput(slots[1..]);
    }
  }

  // ---- packing

  /** The bytes of tile i in the output: everything before it is as long as the sizes before it. */
  function Sizes(notes: seq<Rendered>, n: nat): nat
    requires n <= |notes|
  {
    if n == 0 then 0 else Sizes(notes, n - 1) + notes[n - 1].imgSize
  }

  lemma {:induction false} CutGivesOwnBytes(jobs: seq<Job>, i: nat)
    requires i < |jobs|
    ensures var from := Sizes(Notes(jobs), i);
      && from + |jobs[i].data| <= |Join(jobs)|
      && Join(jobs)[from..from + |jobs[i].data|] == jobs[i].data
    decreases |jobs|
  {
    var n := |jobs| - 1;
    SizesJoin(jobs, n);
    if i < n {
      CutGivesOwnBytes(jobs[..n], i);
      SizesPrefix(jobs, n, i);
    } else {
      assert jobs[..n] == jobs[..i];
    }
  }

  lemma {:induction false} SizesJoin(jobs: seq<Job>, n: nat)
    requires n <= |jobs|
    ensures Sizes(Notes(jobs), n) == |Join(jobs[..n])|
  {
    if n > 0 {
      SizesJoin(jobs, n - 1);
      assert jobs[..n][..n - 1] == jobs[..n - 1];
    }
  }

  lemma {:induction false} SizesPrefix(jobs: seq<Job>, n: nat, i: nat)
    requires i <= n <= |jobs|
    ensures Sizes(Notes(jobs[..n]), i) == Sizes(Notes(jobs), i)
  {
    if i > 0 {
      SizesPrefix(jobs, n, i - 1);
    }
  }

  /** Cutting the output by the sizes noted gives this tile these bytes. */
  ghost predicate Cuts(output: Bytes, notes: seq<Rendered>, i: nat, job: Job)
    requires i < |notes|
  {
    var from := Sizes(notes, i);
    && notes[i] == Rendered(job.tile, job.wireId, |job.data|)
    && from + notes[i].imgSize <= |output|
    && output[from..from + notes[i].imgSize] == job.data
  }

  /** Whatever the order in which the jobs complete, each tile noted is cut out as its own bytes. */
  lemma TilesKeepTheirBytes(workers: nat, steps: seq<Step>)
    requires EnabledRun(NewPool(workers), steps)
    ensures var (p, h) := Run(NewPool(workers), NOTHING, steps);
      && |p.renderedTiles| == |h.appended|
      && forall i :: 0 <= i < |h.appended| ==> Cuts(p.output, p.renderedTiles, i, h.appended[i])
  {
    NewPoolInv(workers);
    RunKeepsInv(NewPool(workers), NOTHING, steps);
    var (p, h) := Run(NewPool(workers), NOTHING, steps);
    hide Run, EnabledRun, NewPool, Cuts, InFlight, InOutput, Encoded, Join, Notes;
    EachCut(h.appended);
  }

  lemma EachCut(jobs: seq<Job>)
    ensures forall i :: 0 <= i < |jobs| ==> Cuts(Join(jobs), Notes(jobs), i, jobs[i])
  {
    forall i | 0 <= i < |jobs| ensures Cuts(Join(jobs), Notes(jobs), i, jobs[i]) {
      hide *;
      CutAt(jobs, i);
    }
  }

  lemma CutAt(jobs: seq<Job>, i: nat)
    requires i < |jobs|
    ensures Cuts(Join(jobs), Notes(jobs), i, jobs[i])
  {
    hide Join, Sizes;
    CutGivesOwnBytes(jobs, i);
  }

  /** Sending the tiles one by one: the output is cut by the sizes noted, in the order noted. */
  method SendEach(output: Bytes, renderedTiles: seq<Rendered>, ghost appended: seq<Job>)
    returns (messages: seq<(Rendered, Bytes)>)
    requires output == Join(appended) && renderedTiles == Notes(appended)
    ensures |messages| == |appended|
    ensures forall i :: 0 <= i < |appended| ==> messages[i] == (renderedTiles[i], appended[i].data)
  {
    messages := [];
    var outputOffset := 0;
    for i := 0 to |renderedTiles|
      invariant |messages| == i && outputOffset == Sizes(renderedTiles, i)
      invariant forall j :: 0 <= j < i ==> messages[j] == (renderedTiles[j], appended[j].data)
    {
      CutGivesOwnBytes(appended, i);
      var size := renderedTiles[i].imgSize;
      messages := messages + [(renderedTiles[i], output[outputOffset..outputOffset + size])];
      outputOffset := outputOffset + size;
    }
  }

  // ---- the pool's critical sections on shared state

  class ThreadPool {
    var work: seq<Job>
    var working: nat
    const threads: nat

    constructor (threads: nat)
      ensures work == [] && working == 0 && this.threads == threads
    {
      this.threads, work, working := threads, [], 0;
    }

    /** The shared part of a pool's state. */
    predicate Shares(p: Pool)
      reads this
    {
      p.work == work && p.working == working && |p.slots| == threads + 1
    }

    method PushWork(job: Job)
      modifies this`work
      ensures work == old(work) + [job]
      ensures forall p: Pool :: old(Shares(p)) && Enabled(p, Push(job)) ==> Shares(Next(p, Push(job)))
    {
      work := work + [job];
    }

    /** The first half of runOne: up to unlocking. */
    method TakeOne() returns (job: Job)
      requires work != []
      modifies this
      ensures [job] + work == old(work) && working == old(working) + 1
      ensures forall p: Pool, t: nat :: old(Shares(p)) && Enabled(p, Take(t)) ==>
                Shares(Next(p, Take(t))) && Next(p, Take(t)).slots[t] == Running(job, false)
    {
      job := work[0];
      work := work[1..];
      working := working + 1;
    }

    /** The second half of runOne: whether a waiting run is notified. */
    method FinishOne() returns (complete: bool)
      requires working > 0
      modifies this`working
      ensures working == old(working) - 1
      ensures forall p: Pool, t: nat :: old(Shares(p)) && Enabled(p, Finish(t)) ==>
                var q := Next(p, Finish(t));
                && Shares(q)
                && (q.runner == Inside(true) && q.slots[0].Idle? ==> (complete <==> Enabled(q, ReturnFromRun)))
    {
      working := working - 1;
      complete := work == [] && working == 0;
    }

    /** The decision at the start of run. */
    method UseThreads() returns (use: bool)
      ensures forall p: Pool :: Shares(p) && Enabled(p, StartRun) ==> Next(p, StartRun).runner == Inside(use)
    {
      use := threads > 1 && |work| > 1;
    }
  }
}
