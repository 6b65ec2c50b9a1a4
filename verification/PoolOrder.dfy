/** The order in which tasks pass through the queues of the pool, whatever the interleaving. */
module PoolOrder {
  import opened Placement
  import opened ThreadPools
  import opened PoolRuns

  // ---------------------------------------------------------------------------------------------
  // What a run puts into the queues and takes out of them
  // ---------------------------------------------------------------------------------------------

  /** The task that a step appends to a queue, if any. */
  function Arrival(p: Pool, a: Action): seq<Task>
    requires Enabled(p, a)
  {
    match a
    case Enqueue(task) => [task]
    case Move => [p.retiring[FirstLeftover(p.retiring)].queue[0]]
    case _ => []
  }

  /** The worker that gets it. */
  function Place(p: Pool, a: Action): (places: seq<nat>)
    requires Enabled(p, a)
    ensures |places| == |Arrival(p, a)|
  {
    match a
    case Enqueue(task) => [LeastLoaded(p.scanning[task])]
    case Move => [LeastLoaded(p.moving)]
    case _ => []
  }

  /** The task that worker j takes in a step, if any. */
  function TakenNow(p: Pool, a: Action, j: nat): seq<Task>
    requires Enabled(p, a)
  {
    if a == Take(Slot(Threads, j)) then [p.threads[j].queue[0]] else []
  }

  ghost function Arrivals(p: Pool, run: seq<Action>): seq<Task>
    requires Legal(p, run)
    decreases |run|
  {
    if run == [] then [] else Arrival(p, run[0]) + Arrivals(Apply(p, run[0]), run[1..])
  }

  ghost function Places(p: Pool, run: seq<Action>): (places: seq<nat>)
    requires Legal(p, run)
    ensures |places| == |Arrivals(p, run)|
    decreases |run|
  {
    if run == [] then [] else Place(p, run[0]) + Places(Apply(p, run[0]), run[1..])
  }

  ghost function Taken(p: Pool, run: seq<Action>, j: nat): seq<Task>
    requires Legal(p, run)
    decreases |run|
  {
    if run == [] then [] else TakenNow(p, run[0], j) + Taken(Apply(p, run[0]), run[1..], j)
  }

  // ---------------------------------------------------------------------------------------------
  // First in, first out
  // ---------------------------------------------------------------------------------------------

  lemma {:induction false} SentAppend<T>(xs: seq<T>, ys: seq<T>, a: seq<nat>, b: seq<nat>, j: nat)
    requires |xs| == |a| && |ys| == |b|
    ensures Sent(xs + ys, a + b, j) == Sent(xs, a, j) + Sent(ys, b, j)
  {
    if xs == [] {
      assert xs + ys == ys && a + b == b;
    } else {
      hide Sent;
      assert (xs + ys)[1..] == xs[1..] + ys && (a + b)[1..] == a[1..] + b;
      SentAppend(xs[1..], ys, a[1..], b, j);
      SentCons(xs + ys, a + b, j);
      SentCons(xs, a, j);
      Grouped(if a[0] == j then [xs[0]] else [], Sent(xs[1..], a[1..], j), Sent(ys, b, j));
    }
  }

  lemma Grouped<T>(a: seq<T>, b: seq<T>, c: seq<T>)
    ensures a + (b + c) == (a + b) + c
  {
  }

  /** What worker j gets in a step. */
  function SentNowTo(p: Pool, a: Action, j: nat): seq<Task>
    requires Enabled(p, a)
  {
    if Arrival(p, a) != [] && Place(p, a)[0] == j then Arrival(p, a) else []
  }

  lemma SentNow(p: Pool, a: Action, j: nat)
    requires Enabled(p, a)
    ensures Sent(Arrival(p, a), Place(p, a), j) == SentNowTo(p, a, j)
  {
    if Arrival(p, a) != [] {
      SentCons(Arrival(p, a), Place(p, a), j);
      assert Arrival(p, a)[1..] == [] && Place(p, a)[1..] == [];
    }
  }

  lemma FifoTake(p: Pool, s: Slot, j: nat)
    requires Enabled(p, Take(s)) && j < |p.threads|
    ensures j < |Apply(p, Take(s)).threads|
    ensures TakenNow(p, Take(s), j) + Apply(p, Take(s)).threads[j].queue == p.threads[j].queue
  {
  }

  lemma FifoOther(p: Pool, a: Action, j: nat)
    requires Enabled(p, a) && !a.StopBegin? && !a.Take? && j < |p.threads|
    ensures j < |Apply(p, a).threads|
    ensures Apply(p, a).threads[j].queue == p.threads[j].queue + SentNowTo(p, a, j)
  {
    hide LeastLoaded, FirstLeftover;
  }

  lemma FifoStep(p: Pool, a: Action, j: nat)
    requires Enabled(p, a) && !a.StopBegin? && j < |p.threads|
    ensures j < |Apply(p, a).threads|
    ensures TakenNow(p, a, j) + Apply(p, a).threads[j].queue == p.threads[j].queue + SentNowTo(p, a, j)
  {
    hide Apply, Enabled;
    if a.Take? {
      FifoTake(p, a.slot, j);
    } else {
      FifoOther(p, a, j);
    }
  }

  /**
    First in, first out: while no stop() begins, what worker j has taken and what is queued there is
    what was queued before followed by all that was sent to it since, in the order of its arrival.
   */
  lemma {:induction false} FirstInFirstOut(p: Pool, run: seq<Action>, j: nat)
    requires Legal(p, run) && j < |p.threads|
    requires forall i :: 0 <= i < |run| ==> !run[i].StopBegin?
    ensures j < |After(p, run).threads|
    ensures Taken(p, run, j) + After(p, run).threads[j].queue
         == p.threads[j].queue + Sent(Arrivals(p, run), Places(p, run), j)
    decreases |run|
  {
    hide Apply, Enabled, Arrival, Place, TakenNow, Sent, SentNowTo;
    if run == [] {
      NothingSent(p, j);
    } else {
      var q, rest := Apply(p, run[0]), run[1..];
      FifoStep(p, run[0], j);
      FirstInFirstOut(q, rest, j);
      SentNow(p, run[0], j);
      SentAppend(Arrival(p, run[0]), Arrivals(q, rest), Place(p, run[0]), Places(q, rest), j);
      Regroup(TakenNow(p, run[0], j), Taken(q, rest, j), After(q, rest).threads[j].queue, q.threads[j].queue,
              p.threads[j].queue, Sent(Arrival(p, run[0]), Place(p, run[0]), j),
              Sent(Arrivals(q, rest), Places(q, rest), j));
    }
  }

  lemma NothingSent(p: Pool, j: nat)
    requires j < |p.threads|
    ensures [] + p.threads[j].queue == p.threads[j].queue + Sent<Task>([], [], j)
  {
  }

  lemma Regroup<T>(now: seq<T>, later: seq<T>, last: seq<T>, next: seq<T>, first: seq<T>, sent: seq<T>, more: seq<T>)
    requires now + next == first + sent && later + last == next + more
    ensures (now + later) + last == first + (sent + more)
  {
    Grouped(now, later, last);
    Grouped(now, next, more);
    Grouped(first, sent, more);
  }

  // ---------------------------------------------------------------------------------------------
  // Redistribution
  // ---------------------------------------------------------------------------------------------

  /** A stop() has joined its workers and not returned. */
  predicate Redistributing(p: Pool) {
    p.retiring != [] && AllJoined(p.retiring) && p.scanning == map[]
  }

  lemma {:induction false} FlattenHead(ws: seq<Worker>)
    requires FirstLeftover(ws) < |ws|
    ensures var i := FirstLeftover(ws);
            Flatten(Queues(ws)) == [ws[i].queue[0]] + Flatten(Queues(ws[i := ws[i].(queue := ws[i].queue[1..])]))
  {
    var i := FirstLeftover(ws);
    var next := ws[i := ws[i].(queue := ws[i].queue[1..])];
    assert Queues(ws)[1..] == Queues(ws[1..]) && Queues(next)[1..] == Queues(next[1..]);
    if i == 0 {
      assert next[1..] == ws[1..];
      assert ws[0].queue == [ws[0].queue[0]] + ws[0].queue[1..];
    } else {
      assert next[1..] == ws[1..][i - 1 := ws[i].(queue := ws[i].queue[1..])];
      assert ws[0].queue == [];
      FlattenHead(ws[1..]);
    }
  }

  lemma RedistributionStep(p: Pool, a: Action)
    requires Redistributing(p) && Enabled(p, a) && !a.StopEnd?
    ensures Redistributing(Apply(p, a)) && !a.StopBegin?
    ensures Arrival(p, a) + Flatten(Queues(Apply(p, a).retiring)) == Flatten(Queues(p.retiring))
  {
    hide LeastLoaded, Queues, Flatten;
    if a.Move? {
      FlattenHead(p.retiring);
    }
  }

  /**
    The order of redistribution, while the survivors go on taking tasks: the leftovers are pushed
    worker by worker and oldest first, each survivor has behind its old queue exactly those sent to it,
    in that order, less what it took from the front meanwhile.
   */
  lemma RedistributionInOrder(p: Pool, run: seq<Action>, j: nat)
    requires Redistributing(p) && Legal(p, run) && j < |p.threads|
    requires forall i :: 0 <= i < |run| ==> !run[i].StopEnd?
    ensures Arrivals(p, run) + Flatten(Queues(After(p, run).retiring)) == Flatten(Queues(p.retiring))
    ensures j < |After(p, run).threads|
    ensures Taken(p, run, j) + After(p, run).threads[j].queue
         == p.threads[j].queue + Sent(Arrivals(p, run), Places(p, run), j)
  {
    OnlyMovesArrive(p, run);
    FirstInFirstOut(p, run, j);
  }

  lemma {:induction false} OnlyMovesArrive(p: Pool, run: seq<Action>)
    requires Redistributing(p) && Legal(p, run)
    requires forall i :: 0 <= i < |run| ==> !run[i].StopEnd?
    ensures forall i :: 0 <= i < |run| ==> !run[i].StopBegin?
    ensures Arrivals(p, run) + Flatten(Queues(After(p, run).retiring)) == Flatten(Queues(p.retiring))
    decreases |run|
  {
    hide Apply, Enabled, Arrival, Flatten, Queues, Redistributing;
    if run == [] {
      assert [] + Flatten(Queues(p.retiring)) == Flatten(Queues(p.retiring));
    } else {
      var q, rest := Apply(p, run[0]), run[1..];
      RedistributionStep(p, run[0]);
      OnlyMovesArrive(q, rest);
      var now, later, left := Arrival(p, run[0]), Arrivals(q, rest), Flatten(Queues(After(q, rest).retiring));
      Grouped(now, later, left);
      assert forall i :: 1 <= i < |run| ==> run[i] == rest[i - 1];
    }
  }
}
