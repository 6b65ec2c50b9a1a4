/**
  Every interleaving of the thread pool of source/thread_pool.cpp. A push is its unlocked scan, one
  read at a time, and then its locked enqueue; workers take, run and finish tasks in between; stop
  retires workers one join at a time and then pushes their leftovers, each with a scan of its own. As
  threads_ has no lock, run and stop exclude the pushes of others.
 */
module PoolRuns {
  import opened Outcomes
  import opened Placement
  import opened ThreadPools

  /** How far a running task is: the lambda of a session first responds and then loops or closes. */
  datatype Progress = Started | Responded | Looped

  datatype Exec = Exec(task: Task, progress: Progress)

  datatype Worker = Worker(queue: Queue, running: Option<Exec>, stopped: bool)

  const IDLE := Worker([], None, false)

  datatype Pool = Pool(
    threads: seq<Worker>,          // threads_
    retiring: seq<Worker>,         // the workers that a stop() still under way took out of threads_
    callers: seq<Worker>,          // pushers that found no worker and run their task themselves
    scanning: map<Task, seq<nat>>, // pushes before their enqueue, with the loads read so far
    moving: seq<nat>,              // the loads read so far by the push of a stop() under way
    done: seq<Task>,
    lost: seq<Task>)

  const START := Pool([], [], [], map[], [], [], [])

  datatype Group = Threads | Retiring | Callers

  datatype Slot = Slot(group: Group, index: nat)

  function In(p: Pool, g: Group): seq<Worker> {
    match g
    case Threads => p.threads
    case Retiring => p.retiring
    case Callers => p.callers
  }

  predicate Has(p: Pool, s: Slot) {
    s.index < |In(p, s.group)|
  }

  function At(p: Pool, s: Slot): Worker
    requires Has(p, s)
  {
    In(p, s.group)[s.index]
  }

  function Update(p: Pool, s: Slot, w: Worker): Pool
    requires Has(p, s)
  {
    match s.group
    case Threads => p.(threads := p.threads[s.index := w])
    case Retiring => p.(retiring := p.retiring[s.index := w])
    case Callers => p.(callers := p.callers[s.index := w])
  }

  // ---------------------------------------------------------------------------------------------
  // Steps
  // ---------------------------------------------------------------------------------------------

  datatype Action =
    | Submit(task: Task)    // push is called
    | Read(task: Task)      // its scan reads the next load
    | Enqueue(task: Task)   // it appends to the queue it picked
    | Take(slot: Slot)      // process_worker takes the oldest task
    | Advance(slot: Slot)   // the running task takes its next step
    | Finish(slot: Slot)    // the running task returns
    | Launch(n: nat)        // run(n)
    | StopBegin(n: nat)     // stop(n) is called
    | Signal(index: nat)    // it sets the status of the next worker, having joined those before
    | Look                  // its push of the oldest leftover task reads the next load
    | Move                  // that push appends to the queue it picked
    | StopEnd               // it returns

  predicate ScanDone(read: seq<nat>, workers: nat) {
    |read| == workers || (read != [] && read[|read| - 1] == 0)
  }

  predicate Joined(w: Worker) {
    w.stopped && w.running == None
  }

  predicate AllJoined(ws: seq<Worker>) {
    forall i :: 0 <= i < |ws| ==> Joined(ws[i])
  }

  /** The first worker with leftover tasks, or |ws|. */
  function FirstLeftover(ws: seq<Worker>): (i: nat)
    ensures i <= |ws|
    ensures i < |ws| ==> ws[i].queue != []
    ensures i == |ws| ==> forall j :: 0 <= j < |ws| ==> ws[j].queue == []
  {
    if ws == [] then 0 else if ws[0].queue != [] then 0 else 1 + FirstLeftover(ws[1..])
  }

  /** A stop() has joined its workers and still has tasks of theirs to push. */
  predicate Moving(p: Pool) {
    p.retiring != [] && AllJoined(p.retiring) && FirstLeftover(p.retiring) < |p.retiring|
  }

  predicate Enabled(p: Pool, a: Action) {
    match a
    case Submit(task) => p.retiring == [] && task !in p.scanning
    case Read(task) => task in p.scanning && |p.scanning[task]| < |p.threads| && !ScanDone(p.scanning[task], |p.threads|)
    case Enqueue(task) =>
      task in p.scanning && p.scanning[task] != [] && |p.scanning[task]| <= |p.threads|
      && ScanDone(p.scanning[task], |p.threads|)
    case Take(slot) =>
      Has(p, slot) && !At(p, slot).stopped && At(p, slot).running == None && At(p, slot).queue != []
    case Advance(slot) =>
      Has(p, slot) && At(p, slot).running.Some? && At(p, slot).running.value.progress != Looped
    case Finish(slot) =>
      Has(p, slot) && At(p, slot).running.Some? && At(p, slot).running.value.progress == Looped
    case Launch(n) => p.scanning == map[] && p.retiring == []
    case StopBegin(n) => p.scanning == map[] && p.retiring == []
    case Signal(i) => i < |p.retiring| && !p.retiring[i].stopped && AllJoined(p.retiring[..i])
    case Look => Moving(p) && |p.moving| < |p.threads| && !ScanDone(p.moving, |p.threads|)
    case Move => Moving(p) && p.moving != [] && |p.moving| <= |p.threads| && ScanDone(p.moving, |p.threads|)
    case StopEnd =>
      p.retiring != [] && AllJoined(p.retiring)
      && (p.threads == [] || FirstLeftover(p.retiring) == |p.retiring|)
  }

  function Next(progress: Progress): Progress {
    if progress == Started then Responded else Looped
  }

  function Queues(ws: seq<Worker>): (queues: seq<Queue>)
    ensures |queues| == |ws|
  {
    seq(|ws|, i requires 0 <= i < |ws| => ws[i].queue)
  }

  function Apply(p: Pool, a: Action): Pool
    requires Enabled(p, a)
  {
    match a
    case Submit(task) =>
      if p.threads == [] then p.(callers := p.callers + [IDLE.(running := Some(Exec(task, Started)))])
      else p.(scanning := p.scanning[task := []])
    case Read(task) =>
      var read := p.scanning[task];
      p.(scanning := p.scanning[task := read + [|p.threads[|read|].queue|]])
    case Enqueue(task) =>
      var k := LeastLoaded(p.scanning[task]);
      p.(threads := p.threads[k := p.threads[k].(queue := p.threads[k].queue + [task])], scanning := p.scanning - {task})
    case Take(slot) =>
      var w := At(p, slot);
      Update(p, slot, w.(queue := w.queue[1..], running := Some(Exec(w.queue[0], Started))))
    case Advance(slot) =>
      var w := At(p, slot);
      Update(p, slot, w.(running := Some(Exec(w.running.value.task, Next(w.running.value.progress)))))
    case Finish(slot) =>
      var w := At(p, slot);
      Update(p, slot, w.(running := None)).(done := p.done + [w.running.value.task])
    case Launch(n) => p.(threads := p.threads + seq(n, _ => IDLE))
    case StopBegin(n) =>
      var m := if n <= |p.threads| then n else |p.threads|;
      p.(threads := p.threads[m..], retiring := p.threads[..m])
    case Signal(i) => p.(retiring := p.retiring[i := p.retiring[i].(stopped := true)])
    case Look => p.(moving := p.moving + [|p.threads[|p.moving|].queue|])
    case Move =>
      var i, k := FirstLeftover(p.retiring), LeastLoaded(p.moving);
      var from, to := p.retiring[i], p.threads[k];
      p.(retiring := p.retiring[i := from.(queue := from.queue[1..])],
         threads := p.threads[k := to.(queue := to.queue + [from.queue[0]])],
         moving := [])
    case StopEnd => p.(retiring := [], lost := p.lost + Flatten(Queues(p.retiring)))
  }

  ghost predicate Legal(p: Pool, run: seq<Action>)
    decreases |run|
  {
    run == [] || (Enabled(p, run[0]) && Legal(Apply(p, run[0]), run[1..]))
  }

  ghost function After(p: Pool, run: seq<Action>): Pool
    requires Legal(p, run)
    decreases |run|
  {
    if run == [] then p else After(Apply(p, run[0]), run[1..])
  }

  /** Runs are put together and cut apart at will. */
  lemma {:induction false} RunsCompose(p: Pool, first: seq<Action>, second: seq<Action>)
    ensures Legal(p, first + second) <==> Legal(p, first) && Legal(After(p, first), second)
    ensures Legal(p, first + second) ==> After(p, first + second) == After(After(p, first), second)
    decreases |first|
  {
    hide Enabled, Apply;
    if first == [] {
      assert first + second == second;
    } else {
      assert (first + second)[1..] == first[1..] + second;
      if Enabled(p, first[0]) {
        RunsCompose(Apply(p, first[0]), first[1..], second);
      }
    }
  }

  lemma OneStep(p: Pool, a: Action)
    ensures Legal(p, [a]) <==> Enabled(p, a)
    ensures Enabled(p, a) ==> After(p, [a]) == Apply(p, a)
  {
    hide Enabled, Apply;
    assert [a][1..] == [];
  }

  // ---------------------------------------------------------------------------------------------
  // Where the tasks are
  // ---------------------------------------------------------------------------------------------

  /** Not yet responded (queued, about to be, running or lost), responded, or past the loop. */
  datatype Kind = Waiting | Answered | Spent

  function KindOf(progress: Progress): Kind {
    match progress
    case Started => Waiting
    case Responded => Answered
    case Looped => Spent
  }

  /** How often t is in s. */
  function Occurs(s: seq<Task>, t: Task): nat {
    if s == [] then 0 else (if s[0] == t then 1 else 0) + Occurs(s[1..], t)
  }

  function Held(w: Worker, k: Kind, t: Task): nat {
    (if k == Waiting then Occurs(w.queue, t) else 0) + Runs(w, k, t)
  }

  function Runs(w: Worker, k: Kind, t: Task): nat {
    if w.running.Some? && KindOf(w.running.value.progress) == k && w.running.value.task == t then 1 else 0
  }

  function HeldAll(ws: seq<Worker>, k: Kind, t: Task): nat {
    if ws == [] then 0 else Held(ws[0], k, t) + HeldAll(ws[1..], k, t)
  }

  function Loose(p: Pool, k: Kind, t: Task): nat {
    match k
    case Waiting => (if t in p.scanning then 1 else 0) + Occurs(p.lost, t)
    case Answered => 0
    case Spent => Occurs(p.done, t)
  }

  /** How many copies of t of the given kind there are anywhere. */
  function Copies(p: Pool, k: Kind, t: Task): nat {
    HeldAll(p.threads, k, t) + HeldAll(p.retiring, k, t) + HeldAll(p.callers, k, t) + Loose(p, k, t)
  }

  function AllCopies(p: Pool, t: Task): nat {
    Copies(p, Waiting, t) + Copies(p, Answered, t) + Copies(p, Spent, t)
  }

  lemma {:induction false} OccursAppend(a: seq<Task>, b: seq<Task>, t: Task)
    ensures Occurs(a + b, t) == Occurs(a, t) + Occurs(b, t)
  {
    if a == [] {
      assert a + b == b;
    } else {
      assert (a + b)[1..] == a[1..] + b;
      OccursAppend(a[1..], b, t);
    }
  }

  lemma OccursSnoc(a: seq<Task>, x: Task, t: Task)
    ensures Occurs(a + [x], t) == Occurs(a, t) + if x == t then 1 else 0
  {
    OccursAppend(a, [x], t);
    assert [x][1..] == [];
  }

  lemma {:induction false} HeldUpdate(ws: seq<Worker>, i: nat, w: Worker, k: Kind, t: Task)
    requires i < |ws|
    ensures HeldAll(ws[i := w], k, t) + Held(ws[i], k, t) == HeldAll(ws, k, t) + Held(w, k, t)
  {
    if i == 0 {
      assert ws[0 := w][1..] == ws[1..];
    } else {
      assert ws[i := w][1..] == ws[1..][i - 1 := w];
      HeldUpdate(ws[1..], i - 1, w, k, t);
    }
  }

  lemma {:induction false} HeldAppend(xs: seq<Worker>, ys: seq<Worker>, k: Kind, t: Task)
    ensures HeldAll(xs + ys, k, t) == HeldAll(xs, k, t) + HeldAll(ys, k, t)
  {
    if xs == [] {
      assert xs + ys == ys;
    } else {
      assert (xs + ys)[1..] == xs[1..] + ys;
      HeldAppend(xs[1..], ys, k, t);
    }
  }

  lemma {:induction false} HeldJoined(ws: seq<Worker>, k: Kind, t: Task)
    requires AllJoined(ws)
    ensures HeldAll(ws, k, t) == if k == Waiting then Occurs(Flatten(Queues(ws)), t) else 0
  {
    if ws != [] {
      assert Joined(ws[0]);
      HeldJoined(ws[1..], k, t);
      assert Queues(ws)[1..] == Queues(ws[1..]);
      OccursAppend(ws[0].queue, Flatten(Queues(ws[1..])), t);
    }
  }

  lemma {:induction false} HeldIdle(n: nat, k: Kind, t: Task)
    ensures HeldAll(seq(n, _ => IDLE), k, t) == 0
  {
    if n > 0 {
      assert seq(n, _ => IDLE)[1..] == seq(n - 1, _ => IDLE);
      HeldIdle(n - 1, k, t);
    }
  }

  lemma UpdateCopies(p: Pool, s: Slot, w: Worker, k: Kind, t: Task)
    requires Has(p, s)
    ensures Copies(Update(p, s, w), k, t) + Held(At(p, s), k, t) == Copies(p, k, t) + Held(w, k, t)
  {
    hide HeldAll, Held;
    HeldUpdate(In(p, s.group), s.index, w, k, t);
  }

  function One(b: bool): nat {
    if b then 1 else 0
  }

  /** The change in the number of copies of t that a step may make. */
  ghost predicate Effect(p: Pool, a: Action, q: Pool, k: Kind, t: Task)
    requires Enabled(p, a)
  {
    match a
    case Submit(task) => Copies(q, k, t) == Copies(p, k, t) + One(t == task && k == Waiting)
    case Advance(slot) =>
      var e := At(p, slot).running.value;
      Copies(q, k, t) + One(t == e.task && k == KindOf(e.progress))
      == Copies(p, k, t) + One(t == e.task && k == KindOf(Next(e.progress)))
    case _ => Copies(q, k, t) == Copies(p, k, t)
  }

  lemma SubmitEffect(p: Pool, task: Task, k: Kind, t: Task)
    requires Enabled(p, Submit(task))
    ensures Effect(p, Submit(task), Apply(p, Submit(task)), k, t)
  {
    if p.threads == [] {
      var caller := IDLE.(running := Some(Exec(task, Started)));
      HeldAppend(p.callers, [caller], k, t);
      assert [caller][1..] == [];
    }
  }

  lemma EnqueueEffect(p: Pool, task: Task, k: Kind, t: Task)
    requires Enabled(p, Enqueue(task))
    ensures Effect(p, Enqueue(task), Apply(p, Enqueue(task)), k, t)
  {
    var i := LeastLoaded(p.scanning[task]);
    HeldUpdate(p.threads, i, p.threads[i].(queue := p.threads[i].queue + [task]), k, t);
    OccursSnoc(p.threads[i].queue, task, t);
  }

  lemma TakeEffect(p: Pool, s: Slot, k: Kind, t: Task)
    requires Enabled(p, Take(s))
    ensures Effect(p, Take(s), Apply(p, Take(s)), k, t)
  {
    var w := At(p, s);
    UpdateCopies(p, s, w.(queue := w.queue[1..], running := Some(Exec(w.queue[0], Started))), k, t);
  }

  lemma AdvanceEffect(p: Pool, s: Slot, k: Kind, t: Task)
    requires Enabled(p, Advance(s))
    ensures Effect(p, Advance(s), Apply(p, Advance(s)), k, t)
  {
    var w := At(p, s);
    UpdateCopies(p, s, w.(running := Some(Exec(w.running.value.task, Next(w.running.value.progress)))), k, t);
  }

  lemma FinishEffect(p: Pool, s: Slot, k: Kind, t: Task)
    requires Enabled(p, Finish(s))
    ensures Effect(p, Finish(s), Apply(p, Finish(s)), k, t)
  {
    var w := At(p, s);
    UpdateCopies(p, s, w.(running := None), k, t);
    OccursSnoc(p.done, w.running.value.task, t);
  }

  lemma LaunchEffect(p: Pool, n: nat, k: Kind, t: Task)
    requires Enabled(p, Launch(n))
    ensures Effect(p, Launch(n), Apply(p, Launch(n)), k, t)
  {
    HeldAppend(p.threads, seq(n, _ => IDLE), k, t);
    HeldIdle(n, k, t);
  }

  lemma StopBeginEffect(p: Pool, n: nat, k: Kind, t: Task)
    requires Enabled(p, StopBegin(n))
    ensures Effect(p, StopBegin(n), Apply(p, StopBegin(n)), k, t)
  {
    var m := if n <= |p.threads| then n else |p.threads|;
    assert p.threads == p.threads[..m] + p.threads[m..];
    HeldAppend(p.threads[..m], p.threads[m..], k, t);
  }

  lemma SignalEffect(p: Pool, i: nat, k: Kind, t: Task)
    requires Enabled(p, Signal(i))
    ensures Effect(p, Signal(i), Apply(p, Signal(i)), k, t)
  {
    HeldUpdate(p.retiring, i, p.retiring[i].(stopped := true), k, t);
  }

  lemma MoveEffect(p: Pool, k: Kind, t: Task)
    requires Enabled(p, Move)
    ensures Effect(p, Move, Apply(p, Move), k, t)
  {
    hide LeastLoaded, FirstLeftover, AllJoined, HeldAll;
    var i, j := FirstLeftover(p.retiring), LeastLoaded(p.moving);
    var from, to := p.retiring[i], p.threads[j];
    HeldUpdate(p.retiring, i, from.(queue := from.queue[1..]), k, t);
    HeldUpdate(p.threads, j, to.(queue := to.queue + [from.queue[0]]), k, t);
    OccursSnoc(to.queue, from.queue[0], t);
  }

  lemma StopEndEffect(p: Pool, k: Kind, t: Task)
    requires Enabled(p, StopEnd)
    ensures Effect(p, StopEnd, Apply(p, StopEnd), k, t)
  {
    HeldJoined(p.retiring, k, t);
    OccursAppend(p.lost, Flatten(Queues(p.retiring)), t);
  }

  /** Only Submit brings a task in, and only Advance changes the kind of one. */
  lemma StepEffect(p: Pool, a: Action, k: Kind, t: Task)
    requires Enabled(p, a)
    ensures Effect(p, a, Apply(p, a), k, t)
  {
    hide Apply, Enabled, Copies;
    match a
    case Submit(task) => SubmitEffect(p, task, k, t);
    case Read(task) => ReadEffect(p, task, k, t);
    case Enqueue(task) => EnqueueEffect(p, task, k, t);
    case Take(s) => TakeEffect(p, s, k, t);
    case Advance(s) => AdvanceEffect(p, s, k, t);
    case Finish(s) => FinishEffect(p, s, k, t);
    case Launch(n) => LaunchEffect(p, n, k, t);
    case StopBegin(n) => StopBeginEffect(p, n, k, t);
    case Signal(i) => SignalEffect(p, i, k, t);
    case Look => LookEffect(p, k, t);
    case Move => MoveEffect(p, k, t);
    case StopEnd => StopEndEffect(p, k, t);
  }

  lemma ReadEffect(p: Pool, task: Task, k: Kind, t: Task)
    requires Enabled(p, Read(task))
    ensures Effect(p, Read(task), Apply(p, Read(task)), k, t)
  {
  }

  lemma LookEffect(p: Pool, k: Kind, t: Task)
    requires Enabled(p, Look)
    ensures Effect(p, Look, Apply(p, Look), k, t)
  {
  }
}
