/** The CPU thread pool of source/thread_pool.cpp, one call at a time. */
module ThreadPools {
  import opened Placement

  /** A queued lambda: in the server, request number `number` of session `session`. */
  datatype Task = Task(session: nat, number: nat)

  type Queue = seq<Task>

  /** What one round of process_worker does after its wait. */
  datatype Round = Exit | Idle | Run(task: Task)

  class CpuThreadWorker {
    var queue: Queue
    var stopped: bool // status_ == Status::Stopped

    constructor ()
      ensures queue == [] && !stopped
    {
      queue := [];
      stopped := false;
    }

    /** A stopped worker leaves its queue alone; a working one takes the oldest task. */
    method Next() returns (round: Round)
      modifies `queue
      ensures stopped ==> round == Exit && queue == old(queue)
      ensures !stopped && old(queue) == [] ==> round == Idle && queue == []
      ensures !stopped && old(queue) != [] ==> round.Run? && old(queue) == [round.task] + queue
    {
      if stopped {
        return Exit;
      }
      if queue == [] {
        return Idle;
      }
      round := Run(queue[0]);
      queue := queue[1..];
    }
  }

  ghost function QueuesOf(workers: seq<CpuThreadWorker>): (queues: seq<Queue>)
    reads workers
    ensures |queues| == |workers|
    ensures forall i :: 0 <= i < |workers| ==> queues[i] == workers[i].queue
  {
    if workers == [] then [] else [workers[0].queue] + QueuesOf(workers[1..])
  }

  predicate Distinct(workers: seq<CpuThreadWorker>) {
    forall i, j :: 0 <= i < j < |workers| ==> workers[i] != workers[j]
  }

  class ThreadPool {
    var threads: seq<CpuThreadWorker>
    var inlined: seq<Task> // run by the thread that pushed them, because there was no worker

    ghost predicate Valid()
      reads this, threads
    {
      Distinct(threads) && forall t :: t in threads ==> !t.stopped
    }

    ghost function Queues(): seq<Queue>
      reads this, threads
    {
      QueuesOf(threads)
    }

    constructor ()
      ensures Valid() && threads == [] && inlined == []
    {
      threads, inlined := [], [];
    }

    /** The scan of push. Its early break does not change the answer. */
    method LeastLoadedWorker() returns (least: nat)
      requires threads != []
      ensures IsLeast(Loads(Queues()), least)
    {
      ghost var loads := Loads(Queues());
      least := 0;
      var load := |threads[0].queue|;
      var i := 0;
      while i < |threads|
        invariant 0 <= i <= |threads|
        invariant least < |threads| && load == loads[least]
        invariant i == 0 ==> least == 0
        invariant i > 0 ==> least < i && loads[least] > 0
        invariant forall j :: 0 <= j < i ==> loads[least] <= loads[j]
        invariant forall j :: 0 <= j < least ==> loads[least] < loads[j]
      {
        if threads[i].queue == [] {
          least := i;
          break;
        }
        if |threads[i].queue| < load {
          least := i;
          load := |threads[i].queue|;
        }
        i := i + 1;
      }
    }

    /** Runs `task` at once when there is no worker, and otherwise queues it at a least loaded one. */
    method Push(task: Task)
      requires Valid()
      modifies `inlined, threads
      ensures Valid() && threads == old(threads)
      ensures threads == [] ==> inlined == old(inlined) + [task]
      ensures threads != [] ==> inlined == old(inlined) && Queues() == Place(old(Queues()), task)
    {
      hide Place, LeastLoaded, Loads;
      if threads == [] {
        inlined := inlined + [task];
        return;
      }
      var least := LeastLoadedWorker();
      PlaceAt(Queues(), least, task);
      Enqueue(threads[least], task);
      assert Queues() == old(Queues())[least := old(Queues())[least] + [task]];
    }

    method Enqueue(worker: CpuThreadWorker, task: Task)
      modifies worker`queue
      ensures worker.queue == old(worker.queue) + [task]
    {
      worker.queue := worker.queue + [task];
    }

    /** Adds n idle workers. */
    method Run(n: nat)
      requires Valid()
      modifies `threads
      ensures Valid() && |threads| == |old(threads)| + n && old(threads) <= threads
      ensures forall i :: |old(threads)| <= i < |threads| ==> fresh(threads[i])
      ensures Queues() == old(Queues()) + seq(n, _ => [])
    {
      var left := n;
      while left > 0
        invariant 0 <= left <= n && |threads| == |old(threads)| + n - left
        invariant old(threads) <= threads
        invariant forall i :: |old(threads)| <= i < |threads| ==> fresh(threads[i])
        invariant Valid()
        invariant forall i :: |old(threads)| <= i < |threads| ==> threads[i].queue == []
      {
        var worker := new CpuThreadWorker();
        threads := threads + [worker];
        left := left - 1;
      }
    }

    /** tasks_count */
    method TasksCount() returns (count: nat)
      ensures count == Total(Queues())
    {
      count := CountTasks(threads);
    }

    static method CountTasks(workers: seq<CpuThreadWorker>) returns (count: nat)
      ensures count == Total(QueuesOf(workers))
    {
      count := 0;
      var i := |workers|;
      while i > 0
        invariant 0 <= i <= |workers|
        invariant count == Total(QueuesOf(workers[i..]))
      {
        i := i - 1;
        assert workers[i..][1..] == workers[i + 1..];
        count := count + |workers[i].queue|;
      }
      assert workers[0..] == workers;
    }

    /**
      Retires the first min(n, size) workers and pushes what they had not started to the survivors,
      worker by worker and oldest first. With no survivor those tasks are lost.
     */
    method Stop(n: nat) returns (lost: nat)
      requires Valid()
      modifies `threads, `inlined, threads
      ensures Valid() && inlined == old(inlined)
      ensures var m := if n <= |old(threads)| then n else |old(threads)|;
              && threads == old(threads)[m..]
              && (threads == [] ==> lost == Total(old(Queues())))
              && (threads != [] ==> lost == 0 && Queues() == PlaceAll(old(Queues())[m..], Flatten(old(Queues())[..m]))
                                    && forall t :: t in old(threads)[..m] ==> t.stopped && t.queue == [])
    {
      hide PlaceAll, Flatten, QueuesOf, Total;
      var m := if n <= |threads| then n else |threads|;
      var retired := threads[..m];
      Retire(retired);
      threads := threads[m..];
      assert QueuesOf(retired) == old(Queues())[..m] && Queues() == old(Queues())[m..];
      if threads == [] {
        assert old(Queues())[..m] == old(Queues());
        lost := CountTasks(retired);
      } else {
        Redistribute(retired);
        lost := 0;
      }
    }

    /** Empties the queues of the retired workers into those of the survivors. */
    method Redistribute(retired: seq<CpuThreadWorker>)
      requires Valid() && threads != []
      requires Distinct(retired) && forall t :: t in retired ==> t !in threads
      modifies `inlined, threads, retired
      ensures Valid() && threads == old(threads) && inlined == old(inlined)
      ensures Queues() == PlaceAll(old(Queues()), Flatten(old(QueuesOf(retired))))
      ensures forall t :: t in retired ==> t.queue == [] && t.stopped == old(t.stopped)
    {
      hide PlaceAll, Flatten, QueuesOf;
      ghost var result := PlaceAll(Queues(), Flatten(QueuesOf(retired)));
      assert retired[0..] == retired;
      for i := 0 to |retired|
        invariant Valid() && threads == old(threads) && inlined == old(inlined)
        invariant result == PlaceAll(Queues(), Flatten(QueuesOf(retired[i..])))
        invariant forall j :: 0 <= j < i ==> retired[j].queue == []
        invariant forall j :: 0 <= j < |retired| ==> retired[j].stopped == old(retired[j].stopped)
      {
        ghost var rest := retired[i + 1..];
        NextRetired(retired, i);
        PlaceAllAppend(Queues(), retired[i].queue, Flatten(QueuesOf(rest)));
        ghost var queues := QueuesOf(rest);
        assert forall j :: 0 <= j < |retired| && j != i ==> retired[j] != retired[i] && retired[j] !in threads;
        Drain(retired[i]);
        assert QueuesOf(rest) == queues;
      }
      NothingRetired(Queues());
      assert retired[|retired|..] == [];
    }

    static lemma NextRetired(retired: seq<CpuThreadWorker>, i: nat)
      requires i < |retired|
      ensures Flatten(QueuesOf(retired[i..])) == retired[i].queue + Flatten(QueuesOf(retired[i + 1..]))
    {
      assert retired[i..][0] == retired[i] && retired[i..][1..] == retired[i + 1..];
    }

    static lemma NothingRetired(queues: seq<Queue>)
      requires queues != []
      ensures PlaceAll(queues, Flatten(QueuesOf([]))) == queues
    {
    }

    method Drain(worker: CpuThreadWorker)
      requires Valid() && threads != [] && worker !in threads
      modifies `inlined, threads, worker`queue
      ensures Valid() && threads == old(threads) && inlined == old(inlined)
      ensures worker.queue == [] && Queues() == PlaceAll(old(Queues()), old(worker.queue))
    {
      ghost var result := PlaceAll(Queues(), worker.queue);
      while worker.queue != []
        invariant Valid() && threads == old(threads) && inlined == old(inlined)
        invariant PlaceAll(Queues(), worker.queue) == result
        decreases |worker.queue|
      {
        Push(worker.queue[0]);
        ghost var placed := Queues();
        worker.queue := worker.queue[1..];
        assert Queues() == placed;
      }
    }

    /** Sets the status of the workers; their threads then end without taking another task. */
    static method Retire(workers: seq<CpuThreadWorker>)
      modifies workers
      ensures forall w :: w in workers ==> w.stopped && w.queue == old(w.queue)
    {
      for i := 0 to |workers|
        invariant forall j :: 0 <= j < i ==> workers[j].stopped
        invariant forall j :: 0 <= j < |workers| ==> workers[j].queue == old(workers[j].queue)
      {
        workers[i].stopped := true;
      }
    }
  }
}
