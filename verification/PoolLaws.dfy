/** What holds in every run of the thread pool, whatever the interleaving. */
module PoolLaws {
  import opened Outcomes
  import opened Placement
  import opened ThreadPools
  import opened PoolRuns

  // ---------------------------------------------------------------------------------------------
  // Conservation
  // ---------------------------------------------------------------------------------------------

  /** How often t is pushed in the run. */
  function Submissions(run: seq<Action>, t: Task): nat {
    if run == [] then 0 else One(run[0] == Submit(t)) + Submissions(run[1..], t)
  }

  lemma StepConserves(p: Pool, a: Action, t: Task)
    requires Enabled(p, a)
    ensures AllCopies(Apply(p, a), t) == AllCopies(p, t) + One(a == Submit(t))
  {
    StepEffect(p, a, Waiting, t);
    StepEffect(p, a, Answered, t);
    StepEffect(p, a, Spent, t);
  }

  lemma {:induction false} RunConserves(p: Pool, run: seq<Action>, t: Task)
    requires Legal(p, run)
    ensures AllCopies(After(p, run), t) == AllCopies(p, t) + Submissions(run, t)
    decreases |run|
  {
    if run != [] {
      StepConserves(p, run[0], t);
      RunConserves(Apply(p, run[0]), run[1..], t);
    }
  }

  function Queued(ws: seq<Worker>, t: Task): nat {
    if ws == [] then 0 else Occurs(ws[0].queue, t) + Queued(ws[1..], t)
  }

  function Running(ws: seq<Worker>, t: Task): nat {
    if ws == [] then 0
    else One(ws[0].running.Some? && ws[0].running.value.task == t) + Running(ws[1..], t)
  }

  lemma {:induction false} HeldIsQueuedOrRunning(ws: seq<Worker>, t: Task)
    ensures HeldAll(ws, Waiting, t) + HeldAll(ws, Answered, t) + HeldAll(ws, Spent, t) == Queued(ws, t) + Running(ws, t)
  {
    if ws != [] {
      HeldIsQueuedOrRunning(ws[1..], t);
    }
  }

  /**
    Task conservation: in every run, each push of a task is accounted for exactly once, as a scan
    still under way, queued, running, done or lost. A task that is pushed once therefore runs at most
    once and is never both queued and done.
   */
  lemma TaskConservation(run: seq<Action>, t: Task)
    requires Legal(START, run)
    ensures var p := After(START, run);
            Submissions(run, t) == One(t in p.scanning)
                                   + Queued(p.threads, t) + Queued(p.retiring, t) + Queued(p.callers, t)
                                   + Running(p.threads, t) + Running(p.retiring, t) + Running(p.callers, t)
                                   + Occurs(p.done, t) + Occurs(p.lost, t)
  {
    var p := After(START, run);
    RunConserves(START, run, t);
    HeldIsQueuedOrRunning(p.threads, t);
    HeldIsQueuedOrRunning(p.retiring, t);
    HeldIsQueuedOrRunning(p.callers, t);
  }

  /** There is a worker in every state of the run. */
  ghost predicate AlwaysStaffed(p: Pool, run: seq<Action>)
    requires Legal(p, run)
    decreases |run|
  {
    p.threads != [] && (run == [] || AlwaysStaffed(Apply(p, run[0]), run[1..]))
  }

  lemma NoLeftovers(ws: seq<Worker>)
    requires FirstLeftover(ws) == |ws|
    ensures Flatten(Queues(ws)) == []
  {
    if ws != [] {
      assert Queues(ws)[1..] == Queues(ws[1..]);
      NoLeftovers(ws[1..]);
    }
  }

  /** No task is lost, whatever is stopped, as long as some worker survives. */
  lemma {:induction false} NothingLostWhileStaffed(p: Pool, run: seq<Action>)
    requires Legal(p, run) && AlwaysStaffed(p, run)
    ensures After(p, run).lost == p.lost
    decreases |run|
  {
    if run != [] {
      if run[0].StopEnd? {
        NoLeftovers(p.retiring);
      }
      NothingLostWhileStaffed(Apply(p, run[0]), run[1..]);
    }
  }

  lemma {:induction false} FlattenCounts(ws: seq<Worker>, t: Task)
    ensures Occurs(Flatten(Queues(ws)), t) == Queued(ws, t)
  {
    if ws != [] {
      assert Queues(ws)[1..] == Queues(ws[1..]);
      FlattenCounts(ws[1..], t);
      OccursAppend(ws[0].queue, Flatten(Queues(ws[1..])), t);
    }
  }

  lemma {:induction false} NothingQueued(ws: seq<Worker>, t: Task)
    requires FirstLeftover(ws) == |ws|
    ensures Queued(ws, t) == 0
  {
    NoLeftovers(ws);
    FlattenCounts(ws, t);
  }

  /** The one way to lose a task: a stop() that retires the last worker returns, and it was queued there. */
  lemma OnlyLastStopLoses(p: Pool, a: Action, t: Task)
    requires Enabled(p, a)
    ensures Occurs(Apply(p, a).lost, t) ==
            Occurs(p.lost, t) + if a == StopEnd && p.threads == [] then Queued(p.retiring, t) else 0
  {
    if a.StopEnd? {
      OccursAppend(p.lost, Flatten(Queues(p.retiring)), t);
      FlattenCounts(p.retiring, t);
      if p.threads != [] {
        NothingQueued(p.retiring, t);
      }
    }
  }

  /** Without a stop() nothing is lost, be there workers or none. */
  lemma {:induction false} NothingLostWithoutStop(p: Pool, run: seq<Action>)
    requires Legal(p, run) && p.retiring == []
    requires forall i :: 0 <= i < |run| ==> !run[i].StopBegin?
    ensures After(p, run).retiring == [] && After(p, run).lost == p.lost
    decreases |run|
  {
    if run != [] {
      WithoutStopStep(p, run[0]);
      NothingLostWithoutStop(Apply(p, run[0]), run[1..]);
    }
  }

  lemma WithoutStopStep(p: Pool, a: Action)
    requires Enabled(p, a) && p.retiring == [] && !a.StopBegin?
    ensures Apply(p, a).retiring == [] && Apply(p, a).lost == p.lost
  {
  }

  /** A push without a worker has its task running at once on the thread that pushes, and nowhere else. */
  lemma InlinePush(p: Pool, task: Task, t: Task)
    requires Enabled(p, Submit(task)) && p.threads == []
    ensures var q := Apply(p, Submit(task));
            && q == p.(callers := q.callers) && |q.callers| == |p.callers| + 1
            && q.callers[|p.callers|].running == Some(Exec(task, Started))
            && Running(q.callers, t) == Running(p.callers, t) + One(t == task)
            && Queued(q.callers, t) == Queued(p.callers, t)
  {
    RunningAppend(p.callers, Apply(p, Submit(task)).callers[|p.callers|], t);
  }

  lemma {:induction false} RunningAppend(ws: seq<Worker>, w: Worker, t: Task)
    ensures Running(ws + [w], t) == Running(ws, t) + One(w.running.Some? && w.running.value.task == t)
    ensures Queued(ws + [w], t) == Queued(ws, t) + Occurs(w.queue, t)
  {
    if ws == [] {
      assert ws + [w] == [w] && [w][1..] == [];
    } else {
      assert (ws + [w])[1..] == ws[1..] + [w];
      RunningAppend(ws[1..], w, t);
    }
  }

  // ---------------------------------------------------------------------------------------------
  // No push and no stop gets stuck
  // ---------------------------------------------------------------------------------------------

  /** Scans read workers that are still there, and stop excludes them. */
  ghost predicate Sound(p: Pool) {
    && (forall t :: t in p.scanning ==> |p.scanning[t]| <= |p.threads|)
    && (p.scanning != map[] ==> p.threads != [] && p.retiring == [])
    && (forall i :: 0 <= i < |p.threads| ==> !p.threads[i].stopped)
    && (forall i, j :: 0 <= i < j < |p.retiring| && p.retiring[j].stopped ==> Joined(p.retiring[i]))
    && |p.moving| <= |p.threads| && (p.moving != [] ==> Moving(p))
  }

  /** A step of one worker that has not ended. */
  lemma SoundUpdate(p: Pool, s: Slot, w: Worker)
    requires Sound(p) && Has(p, s)
    requires w.stopped == At(p, s).stopped && !Joined(At(p, s))
    ensures Sound(Update(p, s, w))
  {
  }

  lemma SoundWorkerStep(p: Pool, a: Action)
    requires Sound(p) && Enabled(p, a) && (a.Take? || a.Advance? || a.Finish?)
    ensures Sound(Apply(p, a))
  {
    hide Sound, Update;
    var w := At(p, a.slot);
    match a
    case Take(slot) => SoundUpdate(p, slot, w.(queue := w.queue[1..], running := Some(Exec(w.queue[0], Started))));
    case Advance(slot) =>
      SoundUpdate(p, slot, w.(running := Some(Exec(w.running.value.task, Next(w.running.value.progress)))));
    case Finish(slot) =>
      SoundUpdate(p, slot, w.(running := None));
      SoundDone(Update(p, slot, w.(running := None)), p.done + [w.running.value.task]);
    case _ =>
  }

  lemma SoundDone(p: Pool, done: seq<Task>)
    requires Sound(p)
    ensures Sound(p.(done := done))
  {
  }

  lemma SoundStep(p: Pool, a: Action)
    requires Sound(p) && Enabled(p, a)
    ensures Sound(Apply(p, a))
  {
    if a.Take? || a.Advance? || a.Finish? {
      SoundWorkerStep(p, a);
    } else {
      SoundPoolStep(p, a);
    }
  }

  lemma SoundPoolStep(p: Pool, a: Action)
    requires Sound(p) && Enabled(p, a) && !a.Take? && !a.Advance? && !a.Finish?
    ensures Sound(Apply(p, a))
  {
    hide LeastLoaded, FirstLeftover, Flatten, Queues;
    if a.Submit? {
      assert Apply(p, a).threads == p.threads;
    }
    if a.Enqueue? {
      assert p.scanning[a.task] != [] && p.scanning != map[];
    }
    if a.Signal? {
      assert forall i :: 0 <= i < a.index ==> Joined(p.retiring[..a.index][i]);
    }
  }

  lemma {:induction false} SoundAlways(p: Pool, run: seq<Action>)
    requires Sound(p) && Legal(p, run)
    ensures Sound(After(p, run))
    decreases |run|
  {
    if run != [] {
      SoundStep(p, run[0]);
      SoundAlways(Apply(p, run[0]), run[1..]);
    }
  }

  /** A push that has begun can always go on: it has a load left to read or a queue to append to. */
  lemma PushIsNeverStuck(run: seq<Action>, task: Task)
    requires Legal(START, run)
    ensures var p := After(START, run);
            task in p.scanning ==> Enabled(p, Read(task)) || Enabled(p, Enqueue(task))
  {
    SoundAlways(START, run);
  }

  /** Calls may come at any time, for any number and any task, except while stop and pushes exclude each other. */
  lemma CallsMayBegin(p: Pool, n: nat, task: Task)
    ensures p.scanning == map[] && p.retiring == [] ==> Enabled(p, Launch(n)) && Enabled(p, StopBegin(n))
    ensures task !in p.scanning && p.retiring == [] ==> Enabled(p, Submit(task))
  {
  }

  /** A worker with something to do can always do it: take its oldest task, or go on with the running one. */
  lemma WorkerIsNeverStuck(run: seq<Action>, slot: Slot)
    requires Legal(START, run) && Has(After(START, run), slot)
    ensures var p := After(START, run);
            var w := At(p, slot);
            && (w.running.Some? ==> Enabled(p, Advance(slot)) || Enabled(p, Finish(slot)))
            && (w.running == None && w.queue != [] && slot.group == Threads ==> Enabled(p, Take(slot)))
  {
    SoundAlways(START, run);
  }

  /** The steps by which a stop() comes to an end. */
  predicate StopsOn(p: Pool, a: Action) {
    || a.Signal? || a.Look? || a.Move? || a.StopEnd?
    || ((a.Advance? || a.Finish?) && a.slot.group == Retiring)
  }

  /** A stop() that has retired workers can always go on, until it returns. */
  lemma StopIsNeverStuck(run: seq<Action>)
    requires Legal(START, run)
    ensures var p := After(START, run);
            p.retiring != [] ==> exists a :: StopsOn(p, a) && Enabled(p, a)
  {
    var p := After(START, run);
    SoundAlways(START, run);
    if p.retiring != [] {
      StopGoesOn(p);
    }
  }

  lemma StopGoesOn(p: Pool)
    requires Sound(p) && p.retiring != []
    ensures exists a :: StopsOn(p, a) && Enabled(p, a)
  {
    var i := FirstUnjoined(p.retiring);
    if i < |p.retiring| {
      StopJoins(p, i);
    } else if p.threads == [] || FirstLeftover(p.retiring) == |p.retiring| {
      assert Enabled(p, StopEnd) && StopsOn(p, StopEnd);
    } else if ScanDone(p.moving, |p.threads|) {
      assert Enabled(p, Move) && StopsOn(p, Move);
    } else {
      assert Enabled(p, Look) && StopsOn(p, Look);
    }
  }

  lemma StopJoins(p: Pool, i: nat)
    requires Sound(p) && i < |p.retiring| && !Joined(p.retiring[i])
    requires forall j :: 0 <= j < i ==> Joined(p.retiring[j])
    ensures exists a :: StopsOn(p, a) && Enabled(p, a)
  {
    var slot := Slot(Retiring, i);
    if !p.retiring[i].stopped {
      assert Enabled(p, Signal(i)) && StopsOn(p, Signal(i));
    } else if p.retiring[i].running.value.progress == Looped {
      assert Enabled(p, Finish(slot)) && StopsOn(p, Finish(slot));
    } else {
      assert Enabled(p, Advance(slot)) && StopsOn(p, Advance(slot));
    }
  }

  function FirstUnjoined(ws: seq<Worker>): (i: nat)
    ensures i <= |ws|
    ensures i < |ws| ==> !Joined(ws[i])
    ensures forall j :: 0 <= j < i ==> Joined(ws[j])
  {
    if ws == [] || !Joined(ws[0]) then 0 else 1 + FirstUnjoined(ws[1..])
  }

  /** Each move of a redistribution leaves one task less to move. */
  lemma MoveShrinks(p: Pool)
    requires Enabled(p, Move)
    ensures Total(Queues(Apply(p, Move).retiring)) == Total(Queues(p.retiring)) - 1
  {
    var i := FirstLeftover(p.retiring);
    var w := p.retiring[i];
    TotalUpdate(p.retiring, i, w.(queue := w.queue[1..]));
  }

  lemma {:induction false} TotalUpdate(ws: seq<Worker>, i: nat, w: Worker)
    requires i < |ws|
    ensures Total(Queues(ws[i := w])) + |ws[i].queue| == Total(Queues(ws)) + |w.queue|
  {
    assert Queues(ws)[1..] == Queues(ws[1..]);
    if i == 0 {
      assert Queues(ws[0 := w])[1..] == Queues(ws[1..]);
    } else {
      assert Queues(ws[i := w])[1..] == Queues(ws[1..][i - 1 := w]);
      TotalUpdate(ws[1..], i - 1, w);
    }
  }

  // ---------------------------------------------------------------------------------------------
  // The scan
  // ---------------------------------------------------------------------------------------------

  function Reads(task: Task, n: nat): seq<Action> {
    if n == 0 then [] else [Read(task)] + Reads(task, n - 1)
  }

  lemma ReadOnce(p: Pool, task: Task, loads: seq<nat>)
    requires task in p.scanning && p.scanning[task] + loads == Loads(Queues(p.threads)) && loads != []
    requires forall j :: 0 <= j < |p.scanning[task]| ==> p.scanning[task][j] > 0
    ensures Enabled(p, Read(task))
    ensures var q := Apply(p, Read(task));
            && q.threads == p.threads && task in q.scanning && q.scanning[task] == p.scanning[task] + [loads[0]]
            && q.scanning[task] + loads[1..] == Loads(Queues(q.threads))
  {
    var read := p.scanning[task];
    assert |read| < |p.threads| && (read + loads)[|read|] == loads[0] == |p.threads[|read|].queue|;
    assert read + [loads[0]] + loads[1..] == read + loads;
  }

  /** A run that only scans for `task`, and ends having read these loads. */
  ghost predicate Scans(p: Pool, run: seq<Action>, task: Task, read: seq<nat>) {
    Legal(p, run)
    && After(p, run).threads == p.threads && task in After(p, run).scanning && After(p, run).scanning[task] == read
  }

  lemma ScansCons(p: Pool, run: seq<Action>, task: Task, read: seq<nat>)
    requires Enabled(p, Read(task)) && Scans(Apply(p, Read(task)), run, task, read)
    requires Apply(p, Read(task)).threads == p.threads
    ensures Scans(p, [Read(task)] + run, task, read)
  {
    hide Apply, Enabled;
    assert ([Read(task)] + run)[1..] == run;
  }

  lemma ScansNothing(p: Pool, task: Task)
    requires task in p.scanning
    ensures Reads(task, 0) == [] && Scans(p, [], task, p.scanning[task])
  {
  }

  lemma {:induction false} ScanRun(p: Pool, task: Task, loads: seq<nat>)
    requires task in p.scanning && p.scanning[task] + loads == Loads(Queues(p.threads))
    requires forall j :: 0 <= j < |p.scanning[task]| ==> p.scanning[task][j] > 0
    ensures Scans(p, Reads(task, |ScanOf(loads)|), task, p.scanning[task] + ScanOf(loads))
    decreases |loads|
  {
    hide Apply, Enabled, LeastLoaded, Loads, Queues, Scans;
    var read := p.scanning[task];
    if loads == [] {
      assert read + [] == read;
      ScansNothing(p, task);
    } else {
      ReadOnce(p, task, loads);
      var q := Apply(p, Read(task));
      if loads[0] == 0 {
        ScansNothing(q, task);
        ScansCons(p, [], task, read + [loads[0]]);
      } else {
        var rest := ScanOf(loads[1..]);
        ScanRun(q, task, loads[1..]);
        assert read + [loads[0]] + rest == read + ([loads[0]] + rest);
        ScansCons(p, Reads(task, |rest|), task, read + ([loads[0]] + rest));
      }
    }
  }

  lemma EnqueuePlaces(ws: seq<Worker>, task: Task, k: nat)
    requires ws != [] && k == LeastLoaded(Loads(Queues(ws)))
    ensures Queues(ws[k := ws[k].(queue := ws[k].queue + [task])]) == Place(Queues(ws), task)
  {
  }

  lemma ScanOfIsDone(loads: seq<nat>)
    requires loads != []
    ensures ScanOf(loads) != [] && |ScanOf(loads)| <= |loads| && ScanDone(ScanOf(loads), |loads|)
  {
    ScanOfStops(loads);
  }

  /** With nothing in between, the steps of a push do what ThreadPool.Push does in one go. */
  lemma UndisturbedPush(p: Pool, task: Task)
    requires Enabled(p, Submit(task)) && p.threads != []
    ensures var q := Apply(p, Submit(task));
            var run := Reads(task, |ScanOf(Loads(Queues(p.threads)))|);
            && Legal(q, run)
            && Enabled(After(q, run), Enqueue(task))
            && Queues(Apply(After(q, run), Enqueue(task)).threads) == Place(Queues(p.threads), task)
  {
    hide LeastLoaded, ScanOf, Place, After, Legal, Reads;
    var q := Apply(p, Submit(task));
    var loads := Loads(Queues(p.threads));
    assert [] + loads == loads;
    ScanRun(q, task, loads);
    ScanOfIsDone(loads);
    EarlyBreakIsHarmless(loads);
    assert [] + ScanOf(loads) == ScanOf(loads);
    EnqueuePlaces(p.threads, task, LeastLoaded(loads));
  }

  /** How many pushes enqueue in the run. */
  function Enqueues(run: seq<Action>): nat {
    if run == [] then 0 else One(run[0].Enqueue?) + Enqueues(run[1..])
  }

  /** What the scan has read or would now read of worker j. */
  function Seen(p: Pool, task: Task, j: nat): nat
    requires task in p.scanning && j < |p.threads|
  {
    if j < |p.scanning[task]| then p.scanning[task][j] else |p.threads[j].queue|
  }

  /** After `extra` enqueues by others, against the loads from when the scan began. */
  ghost predicate Stale(p: Pool, task: Task, loads: seq<nat>, extra: nat) {
    && task in p.scanning && p.retiring == [] && |p.threads| == |loads| && |p.scanning[task]| <= |loads|
    && (forall j :: 0 <= j < |loads| ==> |p.threads[j].queue| <= loads[j] + extra)
    && (forall j :: 0 <= j < |loads| ==> Seen(p, task, j) <= loads[j] + extra)
    && (forall j, k :: 0 <= j < |loads| && 0 <= k < |p.scanning[task]| ==>
          |p.threads[k].queue| + Seen(p, task, j) <= p.scanning[task][k] + loads[j] + extra)
  }

  lemma StaleEnqueue(p: Pool, other: Task, task: Task, loads: seq<nat>, extra: nat)
    requires Stale(p, task, loads, extra) && Enabled(p, Enqueue(other)) && other != task
    ensures Stale(Apply(p, Enqueue(other)), task, loads, extra + 1)
  {
  }

  lemma StaleRead(p: Pool, task: Task, loads: seq<nat>, extra: nat)
    requires Stale(p, task, loads, extra) && Enabled(p, Read(task))
    ensures Stale(Apply(p, Read(task)), task, loads, extra)
  {
  }

  /** All other steps leave the scan alone and at most shorten a queue. */
  lemma StaleOtherwise(p: Pool, q: Pool, task: Task, loads: seq<nat>, extra: nat)
    requires Stale(p, task, loads, extra) && q.retiring == []
    requires task in q.scanning && q.scanning[task] == p.scanning[task] && |q.threads| == |p.threads|
    requires forall j :: 0 <= j < |p.threads| ==> |q.threads[j].queue| <= |p.threads[j].queue|
    ensures Stale(q, task, loads, extra)
  {
  }

  lemma StaleStep(p: Pool, a: Action, task: Task, loads: seq<nat>, extra: nat)
    requires Stale(p, task, loads, extra) && p.threads != [] && Enabled(p, a) && a != Enqueue(task)
    ensures Stale(Apply(p, a), task, loads, extra + One(a.Enqueue?))
  {
    hide LeastLoaded;
    if a.Enqueue? {
      StaleEnqueue(p, a.task, task, loads, extra);
    } else if a == Read(task) {
      StaleRead(p, task, loads, extra);
    } else {
      ScanLeftAlone(p, a, task);
      hide Stale, Apply, Enabled;
      StaleOtherwise(p, Apply(p, a), task, loads, extra);
    }
  }

  lemma ScanLeftAlone(p: Pool, a: Action, task: Task)
    requires Enabled(p, a) && task in p.scanning && p.retiring == [] && p.threads != []
    requires !a.Enqueue? && a != Read(task)
    ensures var q := Apply(p, a);
            && q.retiring == [] && task in q.scanning && q.scanning[task] == p.scanning[task]
            && |q.threads| == |p.threads|
            && forall j :: 0 <= j < |p.threads| ==> |q.threads[j].queue| <= |p.threads[j].queue|
  {
  }

  lemma {:induction false} StaleThroughout(p: Pool, run: seq<Action>, task: Task, loads: seq<nat>, extra: nat)
    requires Legal(p, run) && Stale(p, task, loads, extra) && p.threads != []
    requires forall i :: 0 <= i < |run| ==> run[i] != Enqueue(task)
    ensures Stale(After(p, run), task, loads, extra + Enqueues(run))
    decreases |run|
  {
    hide Stale, Apply, Enabled;
    if run != [] {
      StaleStep(p, run[0], task, loads, extra);
      StaleKeepsWorkers(p, run[0], task, loads, extra);
      StaleThroughout(Apply(p, run[0]), run[1..], task, loads, extra + One(run[0].Enqueue?));
    }
  }

  lemma StaleKeepsWorkers(p: Pool, a: Action, task: Task, loads: seq<nat>, extra: nat)
    requires Stale(p, task, loads, extra) && p.threads != [] && Enabled(p, a)
    ensures Apply(p, a).threads != []
  {
  }

  /**
    A scan may be out of date when its push enqueues, but never by more than the others enqueued
    meanwhile: the worker it picked has at most that many tasks more than any worker had when the scan
    began. Undisturbed by other pushes it is still no more loaded than any worker was.
   */
  lemma StaleScan(p: Pool, task: Task, run: seq<Action>, j: nat)
    requires Enabled(p, Submit(task)) && j < |p.threads|
    requires Legal(Apply(p, Submit(task)), run)
    requires forall i :: 0 <= i < |run| ==> run[i] != Enqueue(task)
    ensures var q := After(Apply(p, Submit(task)), run);
            Enabled(q, Enqueue(task)) ==>
              |q.threads[LeastLoaded(q.scanning[task])].queue| <= |p.threads[j].queue| + Enqueues(run)
  {
    hide Stale, Apply, Enabled, LeastLoaded, After, Legal;
    var loads := Loads(Queues(p.threads));
    StaleAtStart(p, task);
    StaleThroughout(Apply(p, Submit(task)), run, task, loads, 0);
    var q := After(Apply(p, Submit(task)), run);
    if Enabled(q, Enqueue(task)) {
      StaleAtEnd(q, task, loads, Enqueues(run), j);
    }
  }

  lemma StaleAtStart(p: Pool, task: Task)
    requires Enabled(p, Submit(task)) && p.threads != []
    ensures Stale(Apply(p, Submit(task)), task, Loads(Queues(p.threads)), 0)
    ensures Apply(p, Submit(task)).threads == p.threads
  {
  }

  lemma StaleAtEnd(q: Pool, task: Task, loads: seq<nat>, extra: nat, j: nat)
    requires Stale(q, task, loads, extra) && Enabled(q, Enqueue(task)) && j < |loads|
    ensures |q.threads[LeastLoaded(q.scanning[task])].queue| <= loads[j] + extra
  {
    hide LeastLoaded;
    var read := q.scanning[task];
    var k := LeastLoaded(read);
    assert IsLeast(read, k);
    assert |q.threads[k].queue| + Seen(q, task, j) <= read[k] + loads[j] + extra;
    if j < |read| {
      assert read[k] <= read[j];
    } else {
      assert read[k] <= read[|read| - 1];
    }
  }
}
