/** When a run of the encoding pool returns: who wakes it up, that it can always return, and
    exactly when it may return before every job is done. */
module RenderRuns {
  import opened RenderPool

  predicate Working(s: Step) { s.Take? || s.Append? || s.Finish? }

  // ---- putting runs together

  lemma {:induction false} RunConcat(p: Pool, h: History, a: seq<Step>, b: seq<Step>)
    requires EnabledRun(p, a) && EnabledRun(Run(p, h, a).0, b)
    ensures EnabledRun(p, a + b)
    ensures Run(p, h, a + b) == Run(Run(p, h, a).0, Run(p, h, a).1, b)
    decreases |a|
  {
    hide Enabled, Next, Record;
    if a == [] {
      assert a + b == b;
    } else {
      assert (a + b)[1..] == a[1..] + b;
      RunConcat(Next(p, a[0]), Record(p, h, a[0]), a[1..], b);
    }
  }

  lemma RunStep(p: Pool, h: History, s: Step, rest: seq<Step>)
    requires Enabled(p, s) && EnabledRun(Next(p, s), rest)
    ensures EnabledRun(p, [s] + rest) && Run(p, h, [s] + rest) == Run(Next(p, s), Record(p, h, s), rest)
  {
    hide Enabled, Next, Record;
    assert ([s] + rest)[1..] == rest;
  }

  /** A whole job done by one thread. */
  function OneJob(t: nat, job: Job): seq<Step> {
    [Take(t)] + (if job.encoded then [Append(t)] else []) + [Finish(t)]
  }

  function DrainSteps(t: nat, work: seq<Job>): seq<Step> {
    if work == [] then [] else OneJob(t, work[0]) + DrainSteps(t, work[1..])
  }

  ghost predicate OnlyQueueShrank(p: Pool, q: Pool) {
    q.slots == p.slots && q.runner == p.runner && q.working == p.working
  }

  /** The thread is idle, and if it is the one that runs the pool, it is inside run. */
  predicate CanWork(p: Pool, t: nat) {
    t < |p.slots| && p.slots[t].Idle? && (t == 0 ==> p.runner.Inside?)
  }

  lemma DrainEncoded(p: Pool, h: History, t: nat)
    requires CanWork(p, t) && p.work != [] && p.work[0].encoded
    ensures EnabledRun(p, OneJob(t, p.work[0]))
    ensures var (q, g) := Run(p, h, OneJob(t, p.work[0]));
      q.work == p.work[1..] && OnlyQueueShrank(p, q) && g.pushed == h.pushed
  {
    var p1, h1 := Next(p, Take(t)), Record(p, h, Take(t));
    var p2, h2 := Next(p1, Append(t)), Record(p1, h1, Append(t));
    var p3, h3 := Next(p2, Finish(t)), Record(p2, h2, Finish(t));
    assert p3.work == p.work[1..] && OnlyQueueShrank(p, p3) && h3.pushed == h.pushed;
    assert OneJob(t, p.work[0]) == [Take(t)] + ([Append(t)] + [Finish(t)]);
    assert Enabled(p, Take(t)) && Enabled(p1, Append(t)) && Enabled(p2, Finish(t));
    hide Enabled, Next, Record, OnlyQueueShrank, CanWork, OneJob;
    RunStep(p2, h2, Finish(t), []);
    RunStep(p1, h1, Append(t), [Finish(t)]);
    RunStep(p, h, Take(t), [Append(t)] + [Finish(t)]);
    assert [Finish(t)] + [] == [Finish(t)];
  }

  lemma DrainOne(p: Pool, h: History, t: nat)
    requires CanWork(p, t) && p.work != []
    ensures EnabledRun(p, OneJob(t, p.work[0]))
    ensures var (q, g) := Run(p, h, OneJob(t, p.work[0]));
      q.work == p.work[1..] && OnlyQueueShrank(p, q) && g.pushed == h.pushed
  {
    if p.work[0].encoded {
      DrainEncoded(p, h, t);
    } else {
      var p1, h1 := Next(p, Take(t)), Record(p, h, Take(t));
      var p2, h2 := Next(p1, Finish(t)), Record(p1, h1, Finish(t));
      assert p2.work == p.work[1..] && OnlyQueueShrank(p, p2) && h2.pushed == h.pushed;
      assert OneJob(t, p.work[0]) == [Take(t)] + [Finish(t)];
      assert Enabled(p, Take(t)) && Enabled(p1, Finish(t));
      hide Enabled, Next, Record, OnlyQueueShrank, CanWork, OneJob;
      RunStep(p1, h1, Finish(t), []);
      RunStep(p, h, Take(t), [Finish(t)]);
      assert [Finish(t)] + [] == [Finish(t)];
    }
  }

  /** One thread can empty the queue alone. */
  lemma {:induction false} Drain(p: Pool, h: History, t: nat)
    requires CanWork(p, t)
    ensures EnabledRun(p, DrainSteps(t, p.work)) && forall s <- DrainSteps(t, p.work) :: Working(s)
    ensures var (q, g) := Run(p, h, DrainSteps(t, p.work));
      q.work == [] && OnlyQueueShrank(p, q) && g.pushed == h.pushed
    decreases |p.work|
  {
    if p.work != [] {
      DrainOne(p, h, t);
      var (q, g) := Run(p, h, OneJob(t, p.work[0]));
      hide Enabled, Next, Record;
      Drain(q, g, t);
      RunConcat(p, h, OneJob(t, p.work[0]), DrainSteps(t, q.work));
    }
  }

  lemma SomeInFlight(slots: seq<Slot>, t: nat)
    requires t < |slots| && slots[t].Running?
    ensures InFlight(slots) != []
  {
    SlotAt(slots, t, slots[t]);
    assert slots[t := slots[t]] == slots;
  }

  /** The runner does not change while run is under way. */
  lemma {:induction false} RunnerStays(p: Pool, h: History, steps: seq<Step>)
    requires EnabledRun(p, steps) && forall s <- steps :: Working(s)
    ensures Run(p, h, steps).0.runner == p.runner
    decreases |steps|
  {
    if steps != [] {
      assert Working(steps[0]);
      RunnerStays(Next(p, steps[0]), Record(p, h, steps[0]), steps[1..]);
    }
  }

  /** The threads stay the same, and what has finished stays finished. */
  lemma {:induction false} ThreadsStay(p: Pool, h: History, steps: seq<Step>)
    requires EnabledRun(p, steps)
    ensures |Run(p, h, steps).0.slots| == |p.slots|
    ensures |Run(p, h, steps).1.finished| >= |h.finished|
    decreases |steps|
  {
    if steps != [] {
      ThreadsStay(Next(p, steps[0]), Record(p, h, steps[0]), steps[1..]);
    }
  }

  // ---- waking up

  /** The step notifies a run that waits for the workers. */
  predicate Notifies(p: Pool, s: Step)
    requires Enabled(p, s)
  {
    s.Finish? && Next(p, s).work == [] && Next(p, s).working == 0
  }

  /** No wake-up is lost and none is idle: of a run that uses the workers, the steps after
      which it may return, and could not before, are those that notify it while thread 0 has
      no job of its own. */
  lemma CompletionNotifies(p: Pool, s: Step)
    requires Enabled(p, s) && |p.slots| > 0 && Next(p, s).runner == Inside(true)
    ensures !Enabled(p, ReturnFromRun) && Enabled(Next(p, s), ReturnFromRun)
       <==> Notifies(p, s) && Next(p, s).slots[0].Idle?
  {
  }

  // ---- a run can always return

  /** The steps that end the job a thread is working on. */
  function EndJob(t: nat, slot: Slot): seq<Step>
    requires slot.Running?
  {
    (if slot.job.encoded && !slot.appended then [Append(t)] else []) + [Finish(t)]
  }

  lemma EndOneRun(p: Pool, h: History, t: nat)
    requires t < |p.slots| && p.slots[t].Running? && p.working > 0
    ensures EnabledRun(p, EndJob(t, p.slots[t])) && forall s <- EndJob(t, p.slots[t]) :: Working(s)
    ensures var q := Run(p, h, EndJob(t, p.slots[t])).0; q.slots == p.slots[t := Idle] && q.runner == p.runner
  {
    var slot := p.slots[t];
    if slot.job.encoded && !slot.appended {
      var p1, h1 := Next(p, Append(t)), Record(p, h, Append(t));
      RunStep(p1, h1, Finish(t), []);
      RunStep(p, h, Append(t), [Finish(t)]);
      assert EndJob(t, slot) == [Append(t)] + [Finish(t)];
      assert Next(p1, Finish(t)).slots == p.slots[t := Idle];
    } else {
      RunStep(p, h, Finish(t), []);
      assert EndJob(t, slot) == [Finish(t)] + [];
    }
  }

  lemma EndOne(p: Pool, h: History, t: nat)
    requires Inv(p, h) && t < |p.slots| && p.slots[t].Running?
    ensures EnabledRun(p, EndJob(t, p.slots[t])) && forall s <- EndJob(t, p.slots[t]) :: Working(s)
    ensures var (q, g) := Run(p, h, EndJob(t, p.slots[t]));
      Inv(q, g) && q.slots == p.slots[t := Idle] && q.runner == p.runner
  {
    SomeInFlight(p.slots, t);
    assert p.working > 0;
    hide Inv, InFlight, EndJob, Working, Next, Record, Enabled;
    EndOneRun(p, h, t);
    RunKeepsInv(p, h, EndJob(t, p.slots[t]));
  }

  ghost predicate AllIdle(slots: seq<Slot>) { forall t :: 0 <= t < |slots| ==> slots[t].Idle? }

  ghost function Busy(slots: seq<Slot>): nat { |InFlight(slots)| }

  /** The threads at work can all come to the end of their jobs. */
  lemma {:induction false} Settle(p: Pool, h: History) returns (steps: seq<Step>)
    requires Inv(p, h)
    ensures EnabledRun(p, steps) && forall s <- steps :: Working(s)
    ensures var (q, g) := Run(p, h, steps); Inv(q, g) && AllIdle(q.slots) && q.runner == p.runner
    decreases Busy(p.slots)
  {
    if AllIdle(p.slots) {
      return [];
    }
    var t :| 0 <= t < |p.slots| && p.slots[t].Running?;
    EndOne(p, h, t);
    var first := EndJob(t, p.slots[t]);
    var (q, g) := Run(p, h, first);
    SlotChange(p.slots, t, Idle);
    hide Inv, InFlight, Enabled, Next, Record;
    var rest := Settle(q, g);
    RunConcat(p, h, first, rest);
    steps := first + rest;
  }

  /** When no thread is at work, thread 0 can empty the queue, and then run may return. */
  lemma IdlePoolCanReturn(q: Pool, g: History)
    requires Inv(q, g) && q.runner.Inside? && AllIdle(q.slots)
    ensures var steps := DrainSteps(0, q.work);
      && EnabledRun(q, steps) && (forall s <- steps :: Working(s))
      && Enabled(Run(q, g, steps).0, ReturnFromRun)
  {
    IdleSlots(q.slots);
    assert q.working == 0 && CanWork(q, 0);
    hide Inv, AllIdle;
    DrainThenReturn(q, g);
  }

  lemma DrainThenReturn(q: Pool, g: History)
    requires CanWork(q, 0) && q.working == 0
    ensures var steps := DrainSteps(0, q.work);
      && EnabledRun(q, steps) && (forall s <- steps :: Working(s))
      && Enabled(Run(q, g, steps).0, ReturnFromRun)
  {
    hide Run, EnabledRun, DrainSteps, Working;
    Drain(q, g, 0);
  }

  /** From every state inside run some continuation returns. */
  lemma RunCanReturn(p: Pool, h: History)
    requires Inv(p, h) && p.runner.Inside?
    ensures exists steps :: EnabledRun(p, steps) && (forall s <- steps :: Working(s))
              && Enabled(Run(p, h, steps).0, ReturnFromRun)
  {
    hide Inv, Enabled, EnabledRun, Run, DrainSteps, AllIdle, Working;
    var first := Settle(p, h);
    var (q, g) := Run(p, h, first);
    IdlePoolCanReturn(q, g);
    RunConcat(p, h, first, DrainSteps(0, q.work));
    assert Enabled(Run(p, h, first + DrainSteps(0, q.work)).0, ReturnFromRun);
  }

  // ---- returning early

  /** Steps by which a run that has just started can return while a job is still in flight. */
  ghost predicate ReturnsEarly(p: Pool, h: History, steps: seq<Step>) {
    && (forall s <- steps :: Working(s))
    && EnabledRun(p, steps)
    && Enabled(Run(p, h, steps).0, ReturnFromRun)
    && InFlight(Run(p, h, steps).0.slots) != []
  }

  /** A worker that woke up by itself takes the first job, thread 0 does the others. */
  lemma Straggler(p: Pool, h: History)
    requires |p.slots| > 1 && p.slots[0].Idle? && p.slots[1].Idle?
    requires p.runner.Inside? && !p.runner.useThreads && p.work != []
    ensures ReturnsEarly(p, h, [Take(1)] + DrainSteps(0, p.work[1..]))
  {
    var q, g := Next(p, Take(1)), Record(p, h, Take(1));
    Drain(q, g, 0);
    assert q.slots[1].Running?;
    RunStep(p, h, Take(1), DrainSteps(0, q.work));
    SomeInFlight(q.slots, 1);
  }

  /** A worker already at work may stay so while thread 0 empties the queue. */
  lemma Latecomer(p: Pool, h: History)
    requires CanWork(p, 0) && p.runner.Inside? && !p.runner.useThreads && InFlight(p.slots) != []
    ensures ReturnsEarly(p, h, DrainSteps(0, p.work))
  {
    Drain(p, h, 0);
  }

  lemma {:induction false} NoneInFlight(slots: seq<Slot>)
    requires InFlight(slots) == []
    ensures AllIdle(slots)
  {
    if slots != [] {
      NoneInFlight(slots[1..]);
      assert forall t :: 0 < t < |slots| ==> slots[t] == slots[1..][t - 1];
    }
  }

  lemma NothingToDo(q: Pool, steps: seq<Step>)
    requires q.work == [] && AllIdle(q.slots)
    requires EnabledRun(q, steps) && forall s <- steps :: Working(s)
    ensures steps == []
  {
    assert forall s :: Working(s) ==> !Enabled(q, s);
  }

  lemma ReturnState(p: Pool, h: History)
    requires Inv(p, h) && Enabled(p, ReturnFromRun) && (p.runner.useThreads || |p.slots| == 1)
    ensures InFlight(p.slots) == []
  {
    if |p.slots| == 1 {
      IdleSlots(p.slots);
    }
  }

  lemma NotEarly(q: Pool, h: History, steps: seq<Step>)
    requires Inv(q, h) && q.runner.Inside?
    requires |q.slots| == 1 || q.runner.useThreads || (q.work == [] && AllIdle(q.slots))
    ensures !ReturnsEarly(q, h, steps)
  {
    if ReturnsEarly(q, h, steps) {
      hide Inv, Enabled, Next, Record, Working, InFlight;
      if |q.slots| == 1 || q.runner.useThreads {
        RunKeepsInv(q, h, steps);
        RunnerStays(q, h, steps);
        ThreadsStay(q, h, steps);
        ReturnState(Run(q, h, steps).0, Run(q, h, steps).1);
      } else {
        NothingToDo(q, steps);
        IdleSlots(q.slots);
      }
    }
  }

  /** The run does not use the workers, and one of them has a job or could take one. */
  ghost predicate MayLeaveBehind(p: Pool) {
    && !(|p.slots| - 1 > 1 && |p.work| > 1)
    && (InFlight(p.slots) != [] || (|p.slots| > 1 && p.work != []))
  }

  /** From every reachable state, run may return while a job is in flight if and only if it
      decides not to use the workers and a worker has a job already or could take one: they
      may wake up without being notified. */
  lemma RunMayReturnEarly(p: Pool, h: History)
    requires Inv(p, h) && p.runner.Outside?
    ensures (exists steps :: ReturnsEarly(Next(p, StartRun), h, steps)) <==> MayLeaveBehind(p)
  {
    if MayLeaveBehind(p) {
      SomeoneStays(p, h);
    } else {
      forall steps ensures !ReturnsEarly(Next(p, StartRun), h, steps) {
        NobodyStays(p, h, steps);
      }
    }
  }

  lemma SomeoneStays(p: Pool, h: History)
    requires Inv(p, h) && p.runner.Outside? && MayLeaveBehind(p)
    ensures exists steps :: ReturnsEarly(Next(p, StartRun), h, steps)
  {
    var q := Next(p, StartRun);
    assert q.slots == p.slots && q.work == p.work && q.runner == Inside(false) && CanWork(q, 0);
    hide Inv, Next;
    if InFlight(p.slots) != [] {
      hide *;
      Latecomer(q, h);
      assert ReturnsEarly(q, h, DrainSteps(0, q.work));
    } else {
      NoneInFlight(p.slots);
      hide ReturnsEarly, DrainSteps;
      Straggler(q, h);
      assert ReturnsEarly(q, h, [Take(1)] + DrainSteps(0, q.work[1..]));
    }
  }

  lemma NobodyStays(p: Pool, h: History, steps: seq<Step>)
    requires Inv(p, h) && p.runner.Outside? && !MayLeaveBehind(p)
    ensures !ReturnsEarly(Next(p, StartRun), h, steps)
  {
    var q := Next(p, StartRun);
    StepKeepsInv(p, h, StartRun);
    assert Record(p, h, StartRun) == h && q.slots == p.slots && q.work == p.work;
    if InFlight(p.slots) == [] {
      NoneInFlight(p.slots);
    }
    hide Inv, InFlight, ReturnsEarly;
    NotEarly(q, h, steps);
  }

  // ---- the same as seen by the one who pushes the jobs

  /** A run of all threads in which these jobs are pushed, and run then may return while one of
      them is in flight. */
  ghost predicate LeavesBehind(p: Pool, h: History, jobs: seq<Job>, steps: seq<Step>) {
    && EnabledRun(p, steps) && ReturnFromRun !in steps
    && var (q, g) := Run(p, h, steps);
       g.pushed == h.pushed + jobs && Enabled(q, ReturnFromRun) && InFlight(q.slots) != []
  }

  function Pushes(jobs: seq<Job>): seq<Step> {
    if jobs == [] then [] else [Push(jobs[0])] + Pushes(jobs[1..])
  }

  lemma {:induction false} PushAll(p: Pool, h: History, jobs: seq<Job>)
    requires p.runner.Outside?
    ensures EnabledRun(p, Pushes(jobs)) && ReturnFromRun !in Pushes(jobs)
    ensures Run(p, h, Pushes(jobs)) == (p.(work := p.work + jobs), h.(pushed := h.pushed + jobs))
    decreases |jobs|
  {
    if jobs == [] {
      assert p.work + [] == p.work && h.pushed + [] == h.pushed;
    } else {
      var job, rest := jobs[0], jobs[1..];
      var q, g := p.(work := p.work + [job]), h.(pushed := h.pushed + [job]);
      assert Enabled(p, Push(job)) && Next(p, Push(job)) == q && Record(p, h, Push(job)) == g;
      assert (p.work + [job]) + rest == p.work + jobs && (h.pushed + [job]) + rest == h.pushed + jobs;
      hide Enabled, Next, Record;
      PushAll(q, g, rest);
      RunStep(p, h, Push(job), Pushes(rest));
    }
  }

  /** The last job is taken by a worker before run starts: run finds nothing left to do. */
  lemma LastTaken(p: Pool, h: History, job: Job)
    requires p.runner.Outside? && |p.slots| > 1 && AllIdle(p.slots) && p.work == []
    ensures LeavesBehind(p, h, [job], [Push(job)] + ([Take(1)] + [StartRun]))
  {
    var p1, h1 := Next(p, Push(job)), Record(p, h, Push(job));
    assert p1.work == [job] && p1.work[1..] == [];
    var p2, h2 := Next(p1, Take(1)), Record(p1, h1, Take(1));
    var p3 := Next(p2, StartRun);
    assert Enabled(p2, StartRun) && Enabled(p1, Take(1)) && Enabled(p3, ReturnFromRun);
    assert p3.slots[1].Running?;
    assert h2.pushed == h1.pushed && Record(p2, h2, StartRun) == h2;
    SomeInFlight(p3.slots, 1);
    hide Enabled, Next, Record, InFlight;
    RunStep(p2, h2, StartRun, []);
    RunStep(p1, h1, Take(1), [StartRun]);
    RunStep(p, h, Push(job), [Take(1)] + [StartRun]);
  }

  lemma Overtaken(p: Pool, h: History, jobs: seq<Job>)
    requires p.runner.Outside? && |p.slots| > 1 && AllIdle(p.slots) && p.work == [] && jobs != []
    ensures exists steps :: LeavesBehind(p, h, jobs, steps)
  {
    var front, last := jobs[..|jobs| - 1], jobs[|jobs| - 1];
    PushAll(p, h, front);
    var (p1, h1) := Run(p, h, Pushes(front));
    assert p1.work == front;
    Drain(p1, h1, 1);
    var (p2, h2) := Run(p1, h1, DrainSteps(1, front));
    LastTaken(p2, h2, last);
    var end := [Push(last)] + ([Take(1)] + [StartRun]);
    assert h2.pushed + [last] == h.pushed + jobs by {
      assert jobs == front + [last];
    }
    hide Enabled, Next, Record, InFlight;
    RunConcat(p1, h1, DrainSteps(1, front), end);
    RunConcat(p, h, Pushes(front), DrainSteps(1, front) + end);
    assert ReturnFromRun !in DrainSteps(1, front) by {
      assert !Working(ReturnFromRun);
    }
    assert LeavesBehind(p, h, jobs, Pushes(front) + (DrainSteps(1, front) + end));
  }

  /** Where jobs are pushed to an idle pool and then run, some interleaving lets run return
      while one of them is in flight if and only if there is a worker and a job. */
  lemma SomeJobMayBeLeftBehind(p: Pool, h: History, jobs: seq<Job>)
    requires Inv(p, h) && p.runner.Outside? && AllIdle(p.slots) && p.work == []
    ensures (exists steps :: LeavesBehind(p, h, jobs, steps)) <==> (|p.slots| > 1 && jobs != [])
  {
    if |p.slots| > 1 && jobs != [] {
      Overtaken(p, h, jobs);
    } else {
      forall steps ensures !LeavesBehind(p, h, jobs, steps) {
        if LeavesBehind(p, h, jobs, steps) {
          NoneLeftBehind(p, h, jobs, steps);
        }
      }
    }
  }

  lemma NoneLeftBehind(p: Pool, h: History, jobs: seq<Job>, steps: seq<Step>)
    requires Inv(p, h) && AllIdle(p.slots) && p.work == [] && (|p.slots| == 1 || jobs == [])
    requires EnabledRun(p, steps) && Run(p, h, steps).1.pushed == h.pushed + jobs
    requires Enabled(Run(p, h, steps).0, ReturnFromRun)
    ensures InFlight(Run(p, h, steps).0.slots) == []
  {
    hide InFlight, Inv, Run, EnabledRun;
    var (q, g) := Run(p, h, steps);
    RunKeepsInv(p, h, steps);
    ThreadsStay(p, h, steps);
    if |p.slots| == 1 {
      IdleSlots(q.slots);
    } else {
      IdleSlots(p.slots);
      NothingAdded(p, h, q, g);
    }
  }

  /** With nothing queued or in flight before, nothing is in flight if no job was pushed. */
  lemma NothingAdded(p: Pool, h: History, q: Pool, g: History)
    requires Inv(p, h) && Inv(q, g) && g.pushed == h.pushed
    requires |h.finished| <= |g.finished|
    requires p.work == [] && InFlight(p.slots) == []
    ensures InFlight(q.slots) == []
  {
    hide Inv, InFlight;
    JobCount(p, h);
    JobCount(q, g);
  }

  lemma JobCount(p: Pool, h: History)
    requires Inv(p, h)
    ensures |h.pushed| == |p.work| + |InFlight(p.slots)| + |h.finished|
  {
    hide InFlight, InOutput, Encoded, Join, Notes;
    assert |multiset(h.pushed)| == |h.pushed|;
    assert |multiset(p.work) + multiset(InFlight(p.slots)) + multiset(h.finished)|
        == |p.work| + |InFlight(p.slots)| + |h.finished|;
  }
}
