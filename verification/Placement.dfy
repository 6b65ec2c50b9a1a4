/** Where ThreadPool::push puts a task, as functions on the queues of the workers. */
module Placement {

  /** The smallest index among the least loaded workers. */
  predicate IsLeast(loads: seq<nat>, k: nat) {
    && k < |loads|
    && (forall j :: 0 <= j < |loads| ==> loads[k] <= loads[j])
    && (forall j :: 0 <= j < k ==> loads[k] < loads[j])
  }

  function LeastLoaded(loads: seq<nat>): (k: nat)
    requires loads != []
    ensures IsLeast(loads, k)
  {
    var n := |loads| - 1;
    if n == 0 then 0
    else
      var k := LeastLoaded(loads[..n]);
      assert forall j :: 0 <= j < n ==> loads[..n][j] == loads[j];
      if loads[n] < loads[k] then n else k
  }

  lemma LeastUnique(loads: seq<nat>, j: nat, k: nat)
    requires IsLeast(loads, j) && IsLeast(loads, k)
    ensures j == k
  {
    assert loads[j] <= loads[k] <= loads[j];
  }

  /** The loads that a scan reads: it breaks off behind the first idle worker. */
  function ScanOf(loads: seq<nat>): (read: seq<nat>)
    ensures read <= loads
    ensures loads != [] ==> read != []
  {
    if loads == [] then []
    else if loads[0] == 0 then [0]
    else [loads[0]] + ScanOf(loads[1..])
  }

  lemma {:induction false} ScanOfStops(loads: seq<nat>)
    ensures ScanOf(loads) == loads || exists k :: |ScanOf(loads)| == k + 1 && k < |loads| && loads[k] == 0
    ensures forall j :: 0 <= j < |ScanOf(loads)| - 1 ==> loads[j] > 0
  {
    if loads != [] && loads[0] != 0 {
      var rest := loads[1..];
      ScanOfStops(rest);
      assert loads == [loads[0]] + rest;
      assert forall j :: 1 <= j < |ScanOf(loads)| - 1 ==> loads[j] == rest[j - 1];
      if ScanOf(rest) != rest {
        assert loads[|ScanOf(rest)|] == rest[|ScanOf(rest)| - 1] == 0;
      }
    } else if loads != [] {
      assert |ScanOf(loads)| == 0 + 1;
    }
  }

  /** Breaking off early never changes which worker is picked. */
  lemma EarlyBreakIsHarmless(loads: seq<nat>)
    requires loads != []
    ensures LeastLoaded(ScanOf(loads)) == LeastLoaded(loads)
  {
    ScanOfStops(loads);
    var read := ScanOf(loads);
    if read != loads {
      var n := |read| - 1;
      assert read[n] == loads[n] == 0;
      assert IsLeast(read, n) && IsLeast(loads, n);
      LeastUnique(read, LeastLoaded(read), n);
      LeastUnique(loads, LeastLoaded(loads), n);
    }
  }

  function Loads<T>(queues: seq<seq<T>>): (loads: seq<nat>)
    ensures |loads| == |queues|
  {
    seq(|queues|, i requires 0 <= i < |queues| => |queues[i]|)
  }

  /** push: to the end of the queue that the scan picks. */
  function Place<T>(queues: seq<seq<T>>, task: T): (r: seq<seq<T>>)
    requires queues != []
    ensures |r| == |queues|
  {
    var k := LeastLoaded(Loads(queues));
    queues[k := queues[k] + [task]]
  }

  lemma PlaceAt<T>(queues: seq<seq<T>>, k: nat, task: T)
    requires IsLeast(Loads(queues), k)
    ensures Place(queues, task) == queues[k := queues[k] + [task]]
  {
    LeastUnique(Loads(queues), k, LeastLoaded(Loads(queues)));
  }

  /** Pushing the tasks one after the other, with no worker taking any. */
  function PlaceAll<T>(queues: seq<seq<T>>, tasks: seq<T>): (r: seq<seq<T>>)
    requires queues != []
    ensures |r| == |queues|
    decreases |tasks|
  {
    if tasks == [] then queues else PlaceAll(Place(queues, tasks[0]), tasks[1..])
  }

  lemma {:induction false} PlaceAllAppend<T>(queues: seq<seq<T>>, xs: seq<T>, ys: seq<T>)
    requires queues != []
    ensures PlaceAll(queues, xs + ys) == PlaceAll(PlaceAll(queues, xs), ys)
    decreases |xs|
  {
    if xs == [] {
      assert xs + ys == ys;
    } else {
      assert (xs + ys)[1..] == xs[1..] + ys;
      PlaceAllAppend(Place(queues, xs[0]), xs[1..], ys);
    }
  }

  function Flatten<T>(queues: seq<seq<T>>): seq<T> {
    if queues == [] then [] else queues[0] + Flatten(queues[1..])
  }

  function Total<T>(queues: seq<seq<T>>): nat {
    if queues == [] then 0 else |queues[0]| + Total(queues[1..])
  }

  /** tasks_count counts every queued task. */
  lemma {:induction false} TotalCounts<T>(queues: seq<seq<T>>)
    ensures Total(queues) == |Flatten(queues)|
  {
    if queues != [] {
      TotalCounts(queues[1..]);
    }
  }

  // ---------------------------------------------------------------------------------------------
  // What redistribution does to the queues
  // ---------------------------------------------------------------------------------------------

  /** The worker that each of the tasks goes to. */
  function Choices<T>(queues: seq<seq<T>>, tasks: seq<T>): (choices: seq<nat>)
    requires queues != []
    ensures |choices| == |tasks|
    ensures forall k :: 0 <= k < |choices| ==> choices[k] < |queues|
    decreases |tasks|
  {
    if tasks == [] then []
    else [LeastLoaded(Loads(queues))] + Choices(Place(queues, tasks[0]), tasks[1..])
  }

  /** The tasks that were sent to worker i, in the order in which they were pushed. */
  function Sent<T>(tasks: seq<T>, choices: seq<nat>, i: nat): seq<T>
    requires |tasks| == |choices|
  {
    if tasks == [] then []
    else (if choices[0] == i then [tasks[0]] else []) + Sent(tasks[1..], choices[1..], i)
  }

  lemma SentCons<T>(tasks: seq<T>, choices: seq<nat>, i: nat)
    requires |tasks| == |choices| > 0
    ensures Sent(tasks, choices, i) == (if choices[0] == i then [tasks[0]] else []) + Sent(tasks[1..], choices[1..], i)
  {
  }

  /**
    Every queue keeps what it had as a prefix and gets behind it exactly the tasks sent to it, in
    push order; as each task is sent to one worker, nothing is lost, duplicated or overtaken.
   */
  lemma {:induction false} PlaceAllSends<T>(queues: seq<seq<T>>, tasks: seq<T>, i: nat)
    requires i < |queues|
    ensures PlaceAll(queues, tasks)[i] == queues[i] + Sent(tasks, Choices(queues, tasks), i)
    decreases |tasks|
  {
    if tasks != [] {
      var next := Place(queues, tasks[0]);
      var choices := Choices(next, tasks[1..]);
      PlaceAllSends(next, tasks[1..], i);
      SentCons(tasks, Choices(queues, tasks), i);
      assert Choices(queues, tasks)[1..] == choices;
      assert next[i] == queues[i] + (if Choices(queues, tasks)[0] == i then [tasks[0]] else []);
    }
  }

  lemma {:induction false} FlattenUpdate<T>(queues: seq<seq<T>>, k: nat, task: T)
    requires k < |queues|
    ensures multiset(Flatten(queues[k := queues[k] + [task]])) == multiset(Flatten(queues)) + multiset{task}
  {
    if k > 0 {
      assert queues[k := queues[k] + [task]][1..] == queues[1..][k - 1 := queues[k] + [task]];
      FlattenUpdate(queues[1..], k - 1, task);
    } else {
      assert queues[0 := queues[0] + [task]][1..] == queues[1..];
    }
  }

  /** Conservation: the queued tasks afterwards are those from before and the pushed ones. */
  lemma {:induction false} PlaceAllConserves<T>(queues: seq<seq<T>>, tasks: seq<T>)
    requires queues != []
    ensures multiset(Flatten(PlaceAll(queues, tasks))) == multiset(Flatten(queues)) + multiset(tasks)
    decreases |tasks|
  {
    if tasks != [] {
      FlattenUpdate(queues, LeastLoaded(Loads(queues)), tasks[0]);
      PlaceAllConserves(Place(queues, tasks[0]), tasks[1..]);
      assert tasks == [tasks[0]] + tasks[1..];
    }
  }

  // ---------------------------------------------------------------------------------------------
  // Balance
  // ---------------------------------------------------------------------------------------------

  /** No worker has more than `gap` tasks more than another. */
  ghost predicate Spread<T>(queues: seq<seq<T>>, gap: nat) {
    forall i, j :: 0 <= i < |queues| && 0 <= j < |queues| ==> |queues[i]| <= |queues[j]| + gap
  }

  lemma PlaceBalances<T>(queues: seq<seq<T>>, task: T, gap: nat)
    requires queues != [] && Spread(queues, gap)
    ensures Spread(Place(queues, task), if gap == 0 then 1 else gap)
  {
    var loads := Loads(queues);
    var k := LeastLoaded(loads);
    assert forall j :: 0 <= j < |queues| ==> |queues[k]| == loads[k] <= loads[j] == |queues[j]|;
  }

  /** A whole redistribution leaves the loads no further apart than they were, or one apart. */
  lemma {:induction false} PlaceAllBalances<T>(queues: seq<seq<T>>, tasks: seq<T>, gap: nat)
    requires queues != [] && Spread(queues, gap)
    ensures Spread(PlaceAll(queues, tasks), if gap == 0 then 1 else gap)
    decreases |tasks|
  {
    if tasks != [] {
      PlaceBalances(queues, tasks[0], gap);
      PlaceAllBalances(Place(queues, tasks[0]), tasks[1..], if gap == 0 then 1 else gap);
    }
  }

  // ---------------------------------------------------------------------------------------------
  // From empty queues: round robin
  // ---------------------------------------------------------------------------------------------

  /** The tasks at positions i, i + w, i + 2w, ... */
  function Stride<T>(tasks: seq<T>, i: nat, w: nat): seq<T>
    requires w > 0
  {
    if tasks == [] then []
    else
      var k := |tasks| - 1;
      Stride(tasks[..k], i, w) + (if k % w == i then [tasks[k]] else [])
  }

  function Share(k: nat, i: nat, w: nat): nat
    requires w > 0
  {
    k / w + (if i < k % w then 1 else 0)
  }

  lemma ShareStep(k: nat, i: nat, w: nat)
    requires i < w
    ensures Share(k + 1, i, w) == Share(k, i, w) + (if k % w == i then 1 else 0)
  {
    var q, r := k / w, k % w;
    assert k == q * w + r;
    if r + 1 < w {
      DivModUnique(k + 1, w, q, r + 1);
    } else {
      DivModUnique(k + 1, w, q + 1, 0);
    }
  }

  lemma DivModUnique(k: nat, w: nat, q: nat, r: nat)
    requires r < w && k == q * w + r
    ensures k / w == q && k % w == r
  {
    assert (k / w - q) * w == r - k % w;
    MultipleOutOfRange(k / w - q, w);
  }

  lemma MultipleOutOfRange(d: int, w: nat)
    ensures d >= 1 ==> d * w >= w
    ensures d <= -1 ==> d * w <= -(w as int)
  {
  }

  lemma {:induction false} StrideLength<T>(tasks: seq<T>, i: nat, w: nat)
    requires i < w
    ensures |Stride(tasks, i, w)| == Share(|tasks|, i, w)
  {
    if tasks == [] {
      DivModUnique(0, w, 0, 0);
    } else {
      StrideLength(tasks[..|tasks| - 1], i, w);
      ShareStep(|tasks| - 1, i, w);
    }
  }

  lemma DivMod(k: nat, w: nat)
    requires w > 0
    ensures (k / w) * w + k % w == k
  {
  }

  lemma {:induction false} StrideAt<T>(tasks: seq<T>, i: nat, w: nat, j: nat)
    requires i < w && j < |Stride(tasks, i, w)|
    ensures i + j * w < |tasks| && Stride(tasks, i, w)[j] == tasks[i + j * w]
  {
    var k := |tasks| - 1;
    StrideLength(tasks[..k], i, w);
    if j < |Stride(tasks[..k], i, w)| {
      StrideAt(tasks[..k], i, w, j);
    } else {
      DivMod(k, w);
      assert j == Share(k, i, w) && k % w == i;
    }
  }

  lemma {:induction false} RoundRobinFrom<T>(w: nat, tasks: seq<T>, i: nat)
    requires i < w
    ensures PlaceAll(seq(w, _ => []), tasks)[i] == Stride(tasks, i, w)
    decreases |tasks|
  {
    var empty: seq<seq<T>> := seq(w, _ => []);
    if tasks != [] {
      var k := |tasks| - 1;
      var init := tasks[..k];
      var queues := PlaceAll(empty, init);
      assert tasks == init + [tasks[k]];
      PlaceAllAppend(empty, init, [tasks[k]]);
      assert PlaceAll(queues, [tasks[k]]) == Place(queues, tasks[k]);
      forall j | 0 <= j < w
        ensures queues[j] == Stride(init, j, w) && |queues[j]| == Share(k, j, w)
      {
        RoundRobinFrom(w, init, j);
        StrideLength(init, j, w);
      }
      LeastUnique(Loads(queues), LeastLoaded(Loads(queues)), k % w);
    }
  }

  /**
    Least-loaded placement refines round robin: pushed to w idle workers that take nothing, the
    tasks at positions i, i + w, i + 2w, ... are the queue of worker i, so its load is the number of
    tasks divided by w, plus one for the first workers.
   */
  lemma RoundRobin<T>(w: nat, tasks: seq<T>, i: nat)
    requires i < w
    ensures var queue := PlaceAll(seq(w, _ => []), tasks)[i];
            && |queue| == |tasks| / w + (if i < |tasks| % w then 1 else 0)
            && forall j :: 0 <= j < |queue| ==> i + j * w < |tasks| && queue[j] == tasks[i + j * w]
  {
    RoundRobinFrom(w, tasks, i);
    StrideLength(tasks, i, w);
    forall j | 0 <= j < |Stride(tasks, i, w)|
      ensures i + j * w < |tasks| && Stride(tasks, i, w)[j] == tasks[i + j * w]
    {
      StrideAt(tasks, i, w, j);
    }
  }
}
