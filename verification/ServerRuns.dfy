/**
  Any number of keep-alive sessions over one thread pool, under every interleaving of network
  events, timers (stale ones too), pool steps and the steps of the sessions' tasks.
 */
module ServerRuns {
  import opened Requests
  import opened Sessions
  import opened ThreadPools
  import opened PoolRuns

  datatype Server = Server(pool: Pool, sessions: map<nat, Session>)

  const BOOT := Server(START, map[])

  /** What the network and the clock do to one session. */
  datatype Input =
    | HeadersEnd(ec: nat, message: Message, buffered: nat)
    | BodyEnd(ec: nat)
    | TimerFires(ec: nat)

  datatype Event =
    | Accept(session: nat)
    | Wire(session: nat, input: Input)
    | PoolMoves(action: Action) // no Submit and no Advance: those belong to the sessions
    | TaskMoves(slot: Slot)     // a running task responds, or loops

  /** An input can come, and its handler does not throw, which would end the program. */
  predicate Expects(s: Session, i: Input) {
    match i
    case HeadersEnd(ec, message, buffered) =>
      s.reading == Headers && (Checked(s, ec).open ==> Missing(message, buffered).Ok?)
    case BodyEnd(_) => s.reading.Body?
    case TimerFires(_) => true
  }

  function Touched(s: Session, i: Input): Session
    requires Expects(s, i)
  {
    match i
    case HeadersEnd(ec, message, buffered) => HeadersRead(s, ec, message, buffered)
    case BodyEnd(ec) => BodyRead(s, ec)
    case TimerFires(ec) => TimerFired(s, ec)
  }

  predicate Dispatches(s: Session, i: Input)
    requires Expects(s, i)
  {
    |Touched(s, i).dispatched| > |s.dispatched|
  }

  /** The push that a dispatch amounts to. */
  function Push(sid: nat, s: Session): Action {
    Submit(Task(sid, |s.dispatched|))
  }

  predicate Knows(v: Server, t: Task) {
    t.session in v.sessions && t.number < |v.sessions[t.session].dispatched|
  }

  predicate Enabled(v: Server, e: Event) {
    match e
    case Accept(sid) => sid !in v.sessions
    case Wire(sid, i) =>
      sid in v.sessions && Expects(v.sessions[sid], i)
      && (Dispatches(v.sessions[sid], i) ==> PoolRuns.Enabled(v.pool, Push(sid, v.sessions[sid])))
    case PoolMoves(a) => !a.Submit? && !a.Advance? && PoolRuns.Enabled(v.pool, a)
    case TaskMoves(slot) =>
      PoolRuns.Enabled(v.pool, Advance(slot)) && Knows(v, At(v.pool, slot).running.value.task)
  }

  /** A step of a session's lambda in terms of that session. */
  function TaskStep(s: Session, number: nat, progress: Progress): Session
    requires number < |s.dispatched|
  {
    if progress == Started then Respond(s, s.dispatched[number]) else Conclude(s, s.dispatched[number])
  }

  function ApplyWire(v: Server, sid: nat, i: Input): Server
    requires Enabled(v, Wire(sid, i))
  {
    var s := v.sessions[sid];
    Server(if Dispatches(s, i) then PoolRuns.Apply(v.pool, Push(sid, s)) else v.pool,
           v.sessions[sid := Touched(s, i)])
  }

  function ApplyTask(v: Server, slot: Slot): Server
    requires Enabled(v, TaskMoves(slot))
  {
    var exec := At(v.pool, slot).running.value;
    var sid := exec.task.session;
    Server(PoolRuns.Apply(v.pool, Advance(slot)),
           v.sessions[sid := TaskStep(v.sessions[sid], exec.task.number, exec.progress)])
  }

  function Apply(v: Server, e: Event): Server
    requires Enabled(v, e)
  {
    match e
    case Accept(sid) => v.(sessions := v.sessions[sid := Loop(NEW)])
    case Wire(sid, i) => ApplyWire(v, sid, i)
    case PoolMoves(a) => v.(pool := PoolRuns.Apply(v.pool, a))
    case TaskMoves(slot) => ApplyTask(v, slot)
  }

  ghost predicate Legal(v: Server, run: seq<Event>)
    decreases |run|
  {
    run == [] || (Enabled(v, run[0]) && Legal(Apply(v, run[0]), run[1..]))
  }

  ghost function After(v: Server, run: seq<Event>): Server
    requires Legal(v, run)
    decreases |run|
  {
    if run == [] then v else After(Apply(v, run[0]), run[1..])
  }

  // ---------------------------------------------------------------------------------------------
  // The invariant
  // ---------------------------------------------------------------------------------------------

  /** The copies of t that have not looped yet. */
  function InFlight(p: Pool, t: Task): nat {
    Copies(p, Waiting, t) + Copies(p, Answered, t)
  }

  /** What a task in flight says about its session. */
  predicate Carries(p: Pool, s: Session, t: Task)
  {
    && t.number + 1 == |s.dispatched| && s.reading == NotReading
    && (Copies(p, Waiting, t) > 0 ==> s.written == s.dispatched[..t.number])
    && (Copies(p, Answered, t) > 0 ==>
          s.written == s.dispatched || (!s.open && s.written == s.dispatched[..t.number]))
  }

  predicate TaskOk(v: Server, t: Task) {
    && AllCopies(v.pool, t) == One(Knows(v, t))
    && (InFlight(v.pool, t) > 0 ==> Knows(v, t) && Carries(v.pool, v.sessions[t.session], t))
  }

  predicate HasBaton(p: Pool, sid: nat, s: Session) {
    s.dispatched != [] && InFlight(p, Task(sid, |s.dispatched| - 1)) > 0
  }

  /** No request that asked to close was followed by another, or will be. */
  predicate CloseComesLast(s: Session) {
    forall i :: 0 <= i < |s.dispatched| && (s.reading == NotReading ==> i < |s.dispatched| - 1) ==>
                  !Closes(s.dispatched[i])
  }

  /** No chunked request gets through, and only an announced body is waited for. */
  predicate OnlySupported(s: Session) {
    && (forall i :: 0 <= i < |s.dispatched| ==> !Chunked(s.dispatched[i]))
    && (s.reading.Body? ==> "content-length" in s.reading.message.fields)
  }

  /** Responses follow requests, and an open session is either reading or has its last task in flight. */
  predicate SessionOk(p: Pool, sid: nat, s: Session) {
    && s.written <= s.dispatched && |s.dispatched| <= |s.written| + 1
    && (s.reading != NotReading ==> s.written == s.dispatched && (s.open ==> s.armed))
    && (s.open && s.reading == NotReading ==> HasBaton(p, sid, s))
    && CloseComesLast(s) && OnlySupported(s)
  }

  ghost predicate Inv(v: Server) {
    && (forall t :: TaskOk(v, t))
    && (forall sid :: sid in v.sessions ==> SessionOk(v.pool, sid, v.sessions[sid]))
  }

  // ---------------------------------------------------------------------------------------------
  // Every event keeps the invariant
  // ---------------------------------------------------------------------------------------------

  /** No copy of any task appears, vanishes or changes its kind. */
  ghost predicate SameCopies(p: Pool, q: Pool) {
    forall k, t :: Copies(q, k, t) == Copies(p, k, t)
  }

  lemma PoolStepKeepsCopies(p: Pool, a: Action)
    requires PoolRuns.Enabled(p, a) && !a.Submit? && !a.Advance?
    ensures SameCopies(p, PoolRuns.Apply(p, a))
  {
    hide Copies, PoolRuns.Apply, PoolRuns.Enabled;
    forall k, t
      ensures Copies(PoolRuns.Apply(p, a), k, t) == Copies(p, k, t)
    {
      StepEffect(p, a, k, t);
    }
  }

  /** A change of a session that hands nothing over and that its tasks may ignore. */
  predicate Quiet(s: Session, r: Session) {
    && r.dispatched == s.dispatched && r.written == s.written && (r.open ==> s.open)
    && (s.reading == NotReading ==> r.reading == NotReading)
  }

  lemma QuietTask(v: Server, w: Server, t: Task)
    requires TaskOk(v, t) && SameCopies(v.pool, w.pool) && v.sessions.Keys <= w.sessions.Keys
    requires forall sid :: sid in v.sessions ==> Quiet(v.sessions[sid], w.sessions[sid])
    requires forall sid :: sid in w.sessions && sid !in v.sessions ==> w.sessions[sid].dispatched == []
    ensures TaskOk(w, t)
  {
    hide Copies;
    if Knows(v, t) {
      assert Quiet(v.sessions[t.session], w.sessions[t.session]);
    }
  }

  lemma QuietTouch(p: Pool, sid: nat, s: Session, i: Input)
    requires SessionOk(p, sid, s) && Expects(s, i) && !Dispatches(s, i)
    ensures Quiet(s, Touched(s, i)) && SessionOk(p, sid, Touched(s, i))
  {
    hide Copies;
  }

  lemma SessionKept(p: Pool, q: Pool, sid: nat, s: Session)
    requires SessionOk(p, sid, s) && SameCopies(p, q)
    ensures SessionOk(q, sid, s)
  {
    hide Copies;
  }

  lemma AcceptKeeps(v: Server, sid: nat)
    requires Inv(v) && Enabled(v, Accept(sid))
    ensures Inv(Apply(v, Accept(sid)))
  {
    hide Copies, TaskOk;
    var w := Apply(v, Accept(sid));
    forall t
      ensures TaskOk(w, t)
    {
      QuietTask(v, w, t);
    }
  }

  lemma PoolMoveKeeps(v: Server, a: Action)
    requires Inv(v) && Enabled(v, PoolMoves(a))
    ensures Inv(Apply(v, PoolMoves(a)))
  {
    hide Copies, TaskOk, SessionOk, PoolRuns.Apply, PoolRuns.Enabled;
    var w := Apply(v, PoolMoves(a));
    PoolStepKeepsCopies(v.pool, a);
    forall t
      ensures TaskOk(w, t)
    {
      QuietTask(v, w, t);
    }
    forall sid | sid in w.sessions
      ensures SessionOk(w.pool, sid, w.sessions[sid])
    {
      SessionKept(v.pool, w.pool, sid, w.sessions[sid]);
    }
  }

  lemma QuietWireKeeps(v: Server, sid: nat, i: Input)
    requires Inv(v) && Enabled(v, Wire(sid, i)) && !Dispatches(v.sessions[sid], i)
    ensures Inv(ApplyWire(v, sid, i))
  {
    hide Copies, TaskOk, SessionOk, Touched, Quiet;
    var w := ApplyWire(v, sid, i);
    QuietTouch(v.pool, sid, v.sessions[sid], i);
    forall t
      ensures TaskOk(w, t)
    {
      forall r | r in v.sessions
        ensures Quiet(v.sessions[r], w.sessions[r])
      {
        QuietSame(v.sessions[r]);
      }
      QuietTask(v, w, t);
    }
  }

  lemma QuietSame(s: Session)
    ensures Quiet(s, s)
  {
  }

  /** What a dispatch does to its session. */
  lemma DispatchTouch(s: Session, i: Input)
    requires Expects(s, i) && Dispatches(s, i) && OnlySupported(s)
    ensures var r := Touched(s, i);
            && OnlySupported(r)
            && s.reading != NotReading && s.open && r.open && r.reading == NotReading && r.written == s.written
            && |r.dispatched| == |s.dispatched| + 1 && r.dispatched[..|s.dispatched|] == s.dispatched
  {
  }

  lemma DispatchTask(v: Server, sid: nat, i: Input, t: Task)
    requires Inv(v) && Enabled(v, Wire(sid, i)) && Dispatches(v.sessions[sid], i)
    ensures TaskOk(ApplyWire(v, sid, i), t)
  {
    hide Copies, Touched, PoolRuns.Apply, PoolRuns.Enabled;
    var s := v.sessions[sid];
    var push := Push(sid, s);
    StepEffect(v.pool, push, Waiting, t);
    StepEffect(v.pool, push, Answered, t);
    StepEffect(v.pool, push, Spent, t);
    assert TaskOk(v, t) && SessionOk(v.pool, sid, s);
    DispatchTouch(s, i);
  }

  lemma DispatchSession(v: Server, sid: nat, i: Input, r: nat)
    requires Inv(v) && Enabled(v, Wire(sid, i)) && Dispatches(v.sessions[sid], i) && r in v.sessions
    ensures SessionOk(ApplyWire(v, sid, i).pool, r, ApplyWire(v, sid, i).sessions[r])
  {
    hide Copies, Touched, PoolRuns.Apply, PoolRuns.Enabled;
    var s := v.sessions[sid];
    var push := Push(sid, s);
    assert SessionOk(v.pool, r, v.sessions[r]) && SessionOk(v.pool, sid, s);
    DispatchTouch(s, i);
    var n := |ApplyWire(v, sid, i).sessions[r].dispatched|;
    if n > 0 {
      StepEffect(v.pool, push, Waiting, Task(r, n - 1));
      StepEffect(v.pool, push, Answered, Task(r, n - 1));
    }
  }

  lemma WireKeeps(v: Server, sid: nat, i: Input)
    requires Inv(v) && Enabled(v, Wire(sid, i))
    ensures Inv(ApplyWire(v, sid, i))
  {
    if Dispatches(v.sessions[sid], i) {
      forall t
        ensures TaskOk(ApplyWire(v, sid, i), t)
      {
        DispatchTask(v, sid, i, t);
      }
      forall r | r in v.sessions
        ensures SessionOk(ApplyWire(v, sid, i).pool, r, ApplyWire(v, sid, i).sessions[r])
      {
        DispatchSession(v, sid, i, r);
      }
    } else {
      QuietWireKeeps(v, sid, i);
    }
  }

  /** A task that moves is the one task in flight of its session, and is of the kind it should be. */
  lemma MovingTask(v: Server, slot: Slot)
    requires Inv(v) && PoolRuns.Enabled(v.pool, Advance(slot))
    ensures var exec := At(v.pool, slot).running.value;
            && Copies(v.pool, KindOf(exec.progress), exec.task) == AllCopies(v.pool, exec.task) == 1
            && Knows(v, exec.task) && Carries(v.pool, v.sessions[exec.task.session], exec.task)
  {
    hide Copies, PoolRuns.Apply;
    var exec := At(v.pool, slot).running.value;
    StepEffect(v.pool, Advance(slot), KindOf(exec.progress), exec.task);
    assert TaskOk(v, exec.task);
  }

  lemma TaskMoveTask(v: Server, slot: Slot, t: Task)
    requires Inv(v) && Enabled(v, TaskMoves(slot))
    ensures TaskOk(ApplyTask(v, slot), t)
  {
    hide Copies, PoolRuns.Apply, PoolRuns.Enabled;
    MovingTask(v, slot);
    StepEffect(v.pool, Advance(slot), Waiting, t);
    StepEffect(v.pool, Advance(slot), Answered, t);
    StepEffect(v.pool, Advance(slot), Spent, t);
    assert TaskOk(v, t);
  }

  lemma TaskMoveSession(v: Server, slot: Slot, r: nat)
    requires Inv(v) && Enabled(v, TaskMoves(slot)) && r in v.sessions
    ensures SessionOk(ApplyTask(v, slot).pool, r, ApplyTask(v, slot).sessions[r])
  {
    hide Copies, PoolRuns.Apply, PoolRuns.Enabled;
    MovingTask(v, slot);
    assert SessionOk(v.pool, r, v.sessions[r]);
    var n := |v.sessions[r].dispatched|;
    if n > 0 {
      StepEffect(v.pool, Advance(slot), Waiting, Task(r, n - 1));
      StepEffect(v.pool, Advance(slot), Answered, Task(r, n - 1));
    }
  }

  lemma EventKeeps(v: Server, e: Event)
    requires Inv(v) && Enabled(v, e)
    ensures Inv(Apply(v, e))
  {
    hide Inv, Enabled, ApplyWire, ApplyTask;
    match e
    case Accept(sid) => AcceptKeeps(v, sid);
    case Wire(sid, i) => WireKeeps(v, sid, i);
    case PoolMoves(a) => PoolMoveKeeps(v, a);
    case TaskMoves(slot) => TaskMoveKeeps(v, slot);
  }

  lemma TaskMoveKeeps(v: Server, slot: Slot)
    requires Inv(v) && Enabled(v, TaskMoves(slot))
    ensures Inv(ApplyTask(v, slot))
  {
    forall t
      ensures TaskOk(ApplyTask(v, slot), t)
    {
      TaskMoveTask(v, slot, t);
    }
    forall r | r in v.sessions
      ensures SessionOk(ApplyTask(v, slot).pool, r, ApplyTask(v, slot).sessions[r])
    {
      TaskMoveSession(v, slot, r);
    }
  }

  lemma {:induction false} AlwaysInv(v: Server, run: seq<Event>)
    requires Inv(v) && Legal(v, run)
    ensures Inv(After(v, run))
    decreases |run|
  {
    if run != [] {
      EventKeeps(v, run[0]);
      AlwaysInv(Apply(v, run[0]), run[1..]);
    }
  }

  lemma BootInv()
    ensures Inv(BOOT)
  {
    forall t
      ensures AllCopies(START, t) == 0
    {
    }
  }
}
