/** The steps of run and stop, when nothing comes in between, do what ThreadPool.Run and ThreadPool.Stop do. */
module PoolRefines {
  import opened Outcomes
  import opened Placement
  import opened ThreadPools
  import opened PoolRuns
  import opened PoolOrder

  /** run(n): the old workers stay as they are, and n idle ones stand behind them. */
  lemma UndisturbedRun(p: Pool, n: nat)
    requires Enabled(p, Launch(n))
    ensures var q := Apply(p, Launch(n));
            && q == p.(threads := q.threads) && |q.threads| == |p.threads| + n && p.threads <= q.threads
            && (forall i :: |p.threads| <= i < |q.threads| ==> q.threads[i] == Worker([], None, false))
            && Queues(q.threads) == Queues(p.threads) + seq(n, _ => [])
  {
  }

  /** A step of stop() itself. */
  predicate OwnStep(a: Action) {
    a.Signal? || a.Look? || a.Move? || a.StopEnd?
  }

  /** The loads read so far are those of the queues, and the scan went on only behind loaded ones. */
  predicate UpToDate(p: Pool) {
    && |p.moving| <= |p.threads|
    && (forall j :: 0 <= j < |p.moving| ==> p.moving[j] == |p.threads[j].queue|)
    && (forall j :: 0 <= j < |p.moving| - 1 ==> p.moving[j] > 0)
  }

  lemma {:induction false} ScanIs(read: seq<nat>, loads: seq<nat>)
    requires read <= loads && (loads != [] ==> read != [])
    requires forall j :: 0 <= j < |read| - 1 ==> read[j] > 0
    requires |read| == |loads| || read[|read| - 1] == 0
    ensures read == ScanOf(loads)
  {
    if loads != [] {
      if |read| == 1 {
        assert loads[0] != 0 ==> loads[1..] == [];
      } else {
        assert read[0] == loads[0] > 0;
        ScanIs(read[1..], loads[1..]);
      }
    }
  }

  lemma MovePlaces(p: Pool)
    requires Enabled(p, Move) && UpToDate(p)
    ensures var q := Apply(p, Move);
            && Flatten(Queues(p.retiring)) == Arrival(p, Move) + Flatten(Queues(q.retiring))
            && Queues(q.threads) == Placement.Place(Queues(p.threads), Arrival(p, Move)[0])
            && q.retiring != [] && q.lost == p.lost && UpToDate(q)
  {
    hide LeastLoaded, FirstLeftover, Flatten, ScanOf;
    var loads := Loads(Queues(p.threads));
    FlattenHead(p.retiring);
    assert p.moving == loads[..|p.moving|];
    ScanIs(p.moving, loads);
    EarlyBreakIsHarmless(loads);
  }

  lemma PlaceAllNext(queues: seq<Queue>, task: Task, tasks: seq<Task>)
    requires queues != []
    ensures PlaceAll(queues, [task] + tasks) == PlaceAll(Placement.Place(queues, task), tasks)
  {
    assert ([task] + tasks)[1..] == tasks;
  }

  lemma LastStep(p: Pool)
    requires Enabled(p, StopEnd)
    ensures var q := Apply(p, StopEnd);
            && q.retiring == [] && q.threads == p.threads && q.lost == p.lost + Flatten(Queues(p.retiring))
            && (p.threads != [] ==> Flatten(Queues(p.retiring)) == [])
  {
    if p.threads != [] {
      NothingLeftOver(p.retiring);
    }
  }

  lemma {:induction false} NothingLeftOver(ws: seq<Worker>)
    requires FirstLeftover(ws) == |ws|
    ensures Flatten(Queues(ws)) == []
  {
    if ws != [] {
      assert Queues(ws)[1..] == Queues(ws[1..]);
      NothingLeftOver(ws[1..]);
    }
  }

  /** When a stop() under way is alone, the leftovers of its workers are placed on the survivors one by one. */
  lemma {:induction false} UndisturbedRest(p: Pool, run: seq<Action>)
    requires Legal(p, run) && UpToDate(p) && p.retiring != [] && After(p, run).retiring == []
    requires forall i :: 0 <= i < |run| ==> OwnStep(run[i])
    ensures var q, left := After(p, run), Flatten(Queues(p.retiring));
            && |q.threads| == |p.threads|
            && (p.threads == [] ==> q.lost == p.lost + left)
            && (p.threads != [] ==> q.lost == p.lost && Queues(q.threads) == PlaceAll(Queues(p.threads), left))
    decreases |run|
  {
    hide Apply, Enabled, Flatten, Queues, PlaceAll, UpToDate;
    var a, q := run[0], Apply(p, run[0]);
    if a.StopEnd? {
      LastStep(p);
      NothingAfterwards(q, run[1..]);
      PlaceAllNothing(Queues(p.threads));
    } else if a.Move? {
      MovePlaces(p);
      HasThreads(p);
      PlaceAllNext(Queues(p.threads), Arrival(p, Move)[0], Flatten(Queues(q.retiring)));
      UndisturbedRest(q, run[1..]);
    } else {
      QuietOwnStep(p, a);
      UndisturbedRest(q, run[1..]);
    }
  }

  lemma QuietOwnStep(p: Pool, a: Action)
    requires Enabled(p, a) && (a.Signal? || a.Look?) && UpToDate(p)
    ensures var q := Apply(p, a);
            && UpToDate(q) && q.retiring != [] && q.lost == p.lost && q.threads == p.threads
            && Queues(q.retiring) == Queues(p.retiring)
  {
  }

  lemma HasThreads(p: Pool)
    requires Enabled(p, Move)
    ensures p.threads != [] && Arrival(p, Move) == [Arrival(p, Move)[0]]
  {
  }

  lemma NothingAfterwards(p: Pool, run: seq<Action>)
    requires Legal(p, run) && p.retiring == [] && forall i :: 0 <= i < |run| ==> OwnStep(run[i])
    ensures run == [] && After(p, run) == p
  {
    forall a | OwnStep(a)
      ensures !Enabled(p, a)
    {
    }
  }

  lemma PlaceAllNothing(queues: seq<Queue>)
    ensures queues != [] ==> PlaceAll(queues, []) == queues
  {
  }

  /**
    stop(n) alone: the first min(n, size) workers retire, and the queues of the others, or the lost
    tasks, end up as ThreadPool.Stop leaves them.
   */
  lemma UndisturbedStop(p: Pool, n: nat, run: seq<Action>)
    requires Enabled(p, StopBegin(n)) && p.moving == []
    requires Legal(Apply(p, StopBegin(n)), run) && forall i :: 0 <= i < |run| ==> OwnStep(run[i])
    requires After(Apply(p, StopBegin(n)), run).retiring == []
    ensures var q := After(Apply(p, StopBegin(n)), run);
            var m := if n <= |p.threads| then n else |p.threads|;
            && |q.threads| == |p.threads| - m
            && (q.threads == [] ==> q.lost == p.lost + Flatten(Queues(p.threads)))
            && (q.threads != [] ==>
                  q.lost == p.lost
                  && Queues(q.threads) == PlaceAll(Queues(p.threads)[m..], Flatten(Queues(p.threads)[..m])))
  {
    hide Flatten, PlaceAll;
    var m := if n <= |p.threads| then n else |p.threads|;
    var b := Apply(p, StopBegin(n));
    assert Queues(b.threads) == Queues(p.threads)[m..] && Queues(b.retiring) == Queues(p.threads)[..m];
    if m == 0 {
      NothingAfterwards(b, run);
      NothingToFlatten();
      assert Queues(p.threads)[0..] == Queues(p.threads);
      PlaceAllNothing(Queues(p.threads));
    } else {
      UndisturbedRest(b, run);
      assert m == |p.threads| ==> Queues(p.threads)[..m] == Queues(p.threads);
    }
  }

  lemma NothingToFlatten()
    ensures Flatten<Task>([]) == []
  {
  }
}
