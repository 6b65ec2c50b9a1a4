/** What holds in every run of the sessions over the pool, whatever the interleaving. */
module ServerLaws {
  import opened Numerals
  import opened Outcomes
  import opened Requests
  import opened Sessions
  import opened ThreadPools
  import opened PoolRuns
  import opened ServerRuns
  import PoolLaws

  lemma Reached(run: seq<Event>)
    requires ServerRuns.Legal(BOOT, run)
    ensures Inv(ServerRuns.After(BOOT, run))
  {
    BootInv();
    AlwaysInv(BOOT, run);
  }

  // ---------------------------------------------------------------------------------------------
  // Order
  // ---------------------------------------------------------------------------------------------

  /**
    The responses written on a connection answer a prefix of the requests dispatched from it, in
    order, each at most once, and at most the last request has no response. No request that asked to
    close the connection is followed by another, and none with a chunked body is dispatched.
   */
  lemma ResponsesInOrder(run: seq<Event>, sid: nat)
    requires ServerRuns.Legal(BOOT, run) && sid in ServerRuns.After(BOOT, run).sessions
    ensures var s := ServerRuns.After(BOOT, run).sessions[sid];
            && s.written <= s.dispatched && |s.dispatched| <= |s.written| + 1
            && (forall i :: 0 <= i < |s.dispatched| - 1 ==> !Closes(s.dispatched[i]))
            && (forall i :: 0 <= i < |s.dispatched| ==> !Chunked(s.dispatched[i]))
  {
    Reached(run);
    var v := ServerRuns.After(BOOT, run);
    var s := v.sessions[sid];
    assert SessionOk(v.pool, sid, s);
  }

  /** A session has at most one task in flight, and it is that of its last request. */
  lemma OneTaskInFlight(run: seq<Event>, t: Task, u: Task)
    requires ServerRuns.Legal(BOOT, run)
    ensures var v := ServerRuns.After(BOOT, run);
            && InFlight(v.pool, t) <= 1
            && (InFlight(v.pool, t) > 0 ==>
                  t.session in v.sessions && t.number == |v.sessions[t.session].dispatched| - 1)
            && (InFlight(v.pool, t) > 0 && InFlight(v.pool, u) > 0 && t.session == u.session ==> t == u)
  {
    Reached(run);
    var v := ServerRuns.After(BOOT, run);
    assert TaskOk(v, t) && TaskOk(v, u);
  }

  /** A task that responds is that of the first request without a response. */
  lemma RespondsInTurn(run: seq<Event>, slot: Slot)
    requires ServerRuns.Legal(BOOT, run)
    requires ServerRuns.Enabled(ServerRuns.After(BOOT, run), TaskMoves(slot))
    ensures var v := ServerRuns.After(BOOT, run);
            var exec := At(v.pool, slot).running.value;
            exec.progress == Started ==> exec.task.number == |v.sessions[exec.task.session].written|
  {
    Reached(run);
    MovingTask(ServerRuns.After(BOOT, run), slot);
  }

  // ---------------------------------------------------------------------------------------------
  // What every event does to its session, field by field
  // ---------------------------------------------------------------------------------------------

  predicate Announces(m: Message) {
    "content-length" in m.fields
  }

  /** Bytes of the announced body that are neither read nor buffered. */
  predicate Lacks(m: Message, buffered: nat) {
    Announces(m) && StoUll(m.fields["content-length"]) != Ok(buffered)
  }

  /**
    The header read ends. A request is dispatched at once only if nothing of its body is missing;
    otherwise the session waits for the rest with the timer armed. Chunked requests and fatal codes
    close it.
   */
  lemma HeadersOutcome(s: Session, ec: nat, m: Message, buffered: nat)
    requires Expects(s, HeadersEnd(ec, m, buffered)) && buffered <= 0xFFFF_FFFF_FFFF_FFFF
    ensures Touched(s, HeadersEnd(ec, m, buffered)) ==
            if !s.open || (ec != 0 && ec != 125) then Session(false, false, NotReading, s.dispatched, s.written)
            else if Lacks(m, buffered) then Session(true, true, Body(m), s.dispatched, s.written)
            else if !Announces(m) && "transfer-encoding" in m.fields && m.fields["transfer-encoding"] == "chunked" then
              Session(false, false, NotReading, s.dispatched, s.written)
            else Session(true, false, NotReading, s.dispatched + [m], s.written)
  {
    hide StoUll;
  }

  /** The body read ends: the request that waited for it is dispatched, unless the read failed. */
  lemma BodyOutcome(s: Session, ec: nat, m: Message)
    requires s.reading == Body(m)
    ensures Touched(s, BodyEnd(ec)) ==
            if !s.open || (ec != 0 && ec != 125) then Session(false, false, NotReading, s.dispatched, s.written)
            else Session(true, false, NotReading, s.dispatched + [m], s.written)
  {
  }

  /** A timer that fires closes its session and does nothing else; a cancelled one does nothing. */
  lemma TimerOutcome(s: Session, ec: nat)
    ensures Touched(s, TimerFires(ec)) ==
            if ec == 0 then Session(false, s.armed, s.reading, s.dispatched, s.written) else s
  {
  }

  predicate AsksToClose(m: Message) {
    "connection" in m.fields && (m.fields["connection"] == "close" || m.fields["connection"] == "Close")
  }

  /**
    The two steps of a task. It writes one response, with the timer armed, if the session is open; then
    the session closes if the request asked for it, and reads again, with the timer armed, if it is open.
    No other session is touched.
   */
  lemma TaskOutcome(v: Server, slot: Slot)
    requires ServerRuns.Enabled(v, TaskMoves(slot))
    ensures var exec := At(v.pool, slot).running.value;
            var sid := exec.task.session;
            var s := v.sessions[sid];
            var m := s.dispatched[exec.task.number];
            var r := if exec.progress == Started then
                       if s.open then Session(true, true, s.reading, s.dispatched, s.written + [m]) else s
                     else if AsksToClose(m) then Session(false, s.armed, s.reading, s.dispatched, s.written)
                     else if s.open then Session(true, true, Headers, s.dispatched, s.written)
                     else Session(false, false, s.reading, s.dispatched, s.written);
            ServerRuns.Apply(v, TaskMoves(slot)).sessions == v.sessions[sid := r]
  {
    hide PoolRuns.Apply, PoolRuns.Enabled;
  }

  /** A new session reads with its timer armed, and a step of the pool touches no session. */
  lemma OtherOutcomes(v: Server, e: Event)
    requires ServerRuns.Enabled(v, e)
    ensures e.Accept? ==>
              ServerRuns.Apply(v, e) == v.(sessions := v.sessions[e.session := Session(true, true, Headers, [], [])])
    ensures e.PoolMoves? ==> ServerRuns.Apply(v, e).sessions == v.sessions
    ensures e.Wire? ==>
              ServerRuns.Apply(v, e).sessions == v.sessions[e.session := Touched(v.sessions[e.session], e.input)]
  {
    hide PoolRuns.Apply, PoolRuns.Enabled, Touched;
  }

  /** A timer may fire at any time, whatever the session does, and whether it is armed or not. */
  lemma TimersFireAnyTime(v: Server, sid: nat, ec: nat)
    requires sid in v.sessions
    ensures ServerRuns.Enabled(v, Wire(sid, TimerFires(ec)))
  {
  }

  /** What else may happen: connections come, reads end with any code and message, and the pool moves. */
  lemma AnythingMayHappen(v: Server, sid: nat, ec: nat, m: Message, buffered: nat, a: Action)
    ensures sid !in v.sessions ==> ServerRuns.Enabled(v, Accept(sid))
    ensures !a.Submit? && !a.Advance? && PoolRuns.Enabled(v.pool, a) ==> ServerRuns.Enabled(v, PoolMoves(a))
    ensures sid in v.sessions && v.sessions[sid].reading == Headers && (ec != 0 && ec != 125) ==>
              ServerRuns.Enabled(v, Wire(sid, HeadersEnd(ec, m, buffered)))
    ensures sid in v.sessions && v.sessions[sid].reading == Headers
            && (Announces(m) ==> StoUll(m.fields["content-length"]).Ok?)
            && PoolRuns.Enabled(v.pool, Submit(Task(sid, |v.sessions[sid].dispatched|))) ==>
              ServerRuns.Enabled(v, Wire(sid, HeadersEnd(ec, m, buffered)))
    ensures sid in v.sessions && v.sessions[sid].reading == Body(m)
            && PoolRuns.Enabled(v.pool, Submit(Task(sid, |v.sessions[sid].dispatched|))) ==>
              ServerRuns.Enabled(v, Wire(sid, BodyEnd(ec)))
  {
    hide PoolRuns.Enabled, StoUll;
  }

  /** Runs are put together and cut apart at will, and every enabled event is one. */
  lemma {:induction false} RunsCompose(v: Server, first: seq<Event>, second: seq<Event>)
    ensures ServerRuns.Legal(v, first + second) <==>
            ServerRuns.Legal(v, first) && ServerRuns.Legal(ServerRuns.After(v, first), second)
    ensures ServerRuns.Legal(v, first + second) ==>
              ServerRuns.After(v, first + second) == ServerRuns.After(ServerRuns.After(v, first), second)
    decreases |first|
  {
    hide ServerRuns.Enabled, ServerRuns.Apply;
    if first == [] {
      assert first + second == second;
    } else {
      assert (first + second)[1..] == first[1..] + second;
      if ServerRuns.Enabled(v, first[0]) {
        RunsCompose(ServerRuns.Apply(v, first[0]), first[1..], second);
      }
    }
  }

  lemma OneEvent(v: Server, e: Event)
    ensures ServerRuns.Legal(v, [e]) <==> ServerRuns.Enabled(v, e)
    ensures ServerRuns.Enabled(v, e) ==> ServerRuns.After(v, [e]) == ServerRuns.Apply(v, e)
  {
    hide ServerRuns.Enabled, ServerRuns.Apply;
    assert [e][1..] == [];
  }

  // ---------------------------------------------------------------------------------------------
  // No request is dispatched before its body is there
  // ---------------------------------------------------------------------------------------------

  /**
    A request is dispatched either when its head has been read and nothing of its body is missing, or
    when the read of its own body ends. The pool gets one task for it.
   */
  lemma DispatchedWhenComplete(v: Server, sid: nat, i: Input)
    requires ServerRuns.Enabled(v, Wire(sid, i)) && (i.HeadersEnd? ==> i.buffered <= 0xFFFF_FFFF_FFFF_FFFF)
    ensures var s, w := v.sessions[sid], ServerRuns.Apply(v, Wire(sid, i));
            var r := w.sessions[sid];
            if r.dispatched == s.dispatched then w.pool == v.pool
            else
              && w.pool == PoolRuns.Apply(v.pool, Submit(Task(sid, |s.dispatched|)))
              && ((i.HeadersEnd? && !Lacks(i.message, i.buffered) && r.dispatched == s.dispatched + [i.message])
                  || (i.BodyEnd? && s.reading.Body? && r.dispatched == s.dispatched + [s.reading.message]))
  {
    hide PoolRuns.Apply, PoolRuns.Enabled, StoUll;
    var s := v.sessions[sid];
    match i
    case HeadersEnd(ec, message, buffered) => HeadersOutcome(s, ec, message, buffered);
    case BodyEnd(ec) => BodyOutcome(s, ec, s.reading.message);
    case TimerFires(ec) => TimerOutcome(s, ec);
  }

  /** Event e is the end of the read of a head whose body is not complete. */
  predicate HeadOf(e: Event, sid: nat, m: Message) {
    e.Wire? && e.session == sid && e.input.HeadersEnd? && e.input.message == m
    && Missing(m, e.input.buffered).Ok? && Missing(m, e.input.buffered).value > 0
  }

  /** Event e ends no read of the session. */
  predicate NoRead(e: Event, sid: nat) {
    e.Wire? && e.session == sid ==> e.input.TimerFires?
  }

  lemma WaitingStep(v: Server, e: Event, sid: nat, m: Message)
    requires ServerRuns.Enabled(v, e) && sid in ServerRuns.Apply(v, e).sessions
    requires ServerRuns.Apply(v, e).sessions[sid].reading == Body(m)
    ensures HeadOf(e, sid, m) || (NoRead(e, sid) && sid in v.sessions && v.sessions[sid].reading == Body(m))
  {
    hide PoolRuns.Apply, PoolRuns.Enabled, StoUll;
  }

  lemma {:induction false} WaitingSince(v: Server, run: seq<Event>, sid: nat, m: Message)
    requires ServerRuns.Legal(v, run) && sid in ServerRuns.After(v, run).sessions
    requires ServerRuns.After(v, run).sessions[sid].reading == Body(m)
    ensures || (sid in v.sessions && v.sessions[sid].reading == Body(m)
                && forall k :: 0 <= k < |run| ==> NoRead(run[k], sid))
            || exists j :: 0 <= j < |run| && HeadOf(run[j], sid, m) && forall k :: j < k < |run| ==> NoRead(run[k], sid)
    decreases |run|
  {
    hide HeadOf, NoRead, ServerRuns.Apply, ServerRuns.Enabled;
    if run != [] {
      var w, rest := ServerRuns.Apply(v, run[0]), run[1..];
      WaitingSince(w, rest, sid, m);
      if j :| 0 <= j < |rest| && HeadOf(rest[j], sid, m) && forall k :: j < k < |rest| ==> NoRead(rest[k], sid) {
        assert HeadOf(run[j + 1], sid, m);
        assert forall k :: j + 1 < k < |run| ==> run[k] == rest[k - 1];
      } else {
        assert forall k :: 1 <= k < |run| ==> run[k] == rest[k - 1];
        WaitingStep(v, run[0], sid, m);
        assert HeadOf(run[0], sid, m) || NoRead(run[0], sid);
      }
    }
  }

  /**
    In every run: a session that waits for a body has read the head of that very request, with bytes of
    the body missing, and has read nothing since. So the request that a body read dispatches is the one
    whose head came last.
   */
  lemma BodyFollowsItsHead(run: seq<Event>, sid: nat, m: Message)
    requires ServerRuns.Legal(BOOT, run) && sid in ServerRuns.After(BOOT, run).sessions
    requires ServerRuns.After(BOOT, run).sessions[sid].reading == Body(m)
    ensures exists j :: 0 <= j < |run| && HeadOf(run[j], sid, m) && forall k :: j < k < |run| ==> NoRead(run[k], sid)
  {
    WaitingSince(BOOT, run, sid, m);
  }

  // ---------------------------------------------------------------------------------------------
  // The pool's share of a run
  // ---------------------------------------------------------------------------------------------

  function PoolPart(v: Server, e: Event): seq<Action>
    requires ServerRuns.Enabled(v, e)
  {
    match e
    case Accept(_) => []
    case Wire(sid, i) => if Dispatches(v.sessions[sid], i) then [Push(sid, v.sessions[sid])] else []
    case PoolMoves(a) => [a]
    case TaskMoves(slot) => [Advance(slot)]
  }

  ghost function PoolRun(v: Server, run: seq<Event>): seq<Action>
    requires ServerRuns.Legal(v, run)
    decreases |run|
  {
    if run == [] then [] else PoolPart(v, run[0]) + PoolRun(ServerRuns.Apply(v, run[0]), run[1..])
  }

  lemma PoolPartApplies(v: Server, e: Event, rest: seq<Action>)
    requires ServerRuns.Enabled(v, e) && PoolRuns.Legal(ServerRuns.Apply(v, e).pool, rest)
    ensures PoolRuns.Legal(v.pool, PoolPart(v, e) + rest)
    ensures PoolRuns.After(v.pool, PoolPart(v, e) + rest) == PoolRuns.After(ServerRuns.Apply(v, e).pool, rest)
  {
    hide PoolRuns.Apply, PoolRuns.Enabled, Touched;
    var part := PoolPart(v, e);
    if part == [] {
      assert part + rest == rest;
    } else {
      assert (part + rest)[1..] == rest;
    }
  }

  /** Seen from the pool, a run of the server is a run of the pool, so all of its laws apply. */
  lemma {:induction false} PoolSeesLegalRun(v: Server, run: seq<Event>)
    requires ServerRuns.Legal(v, run)
    ensures PoolRuns.Legal(v.pool, PoolRun(v, run))
    ensures PoolRuns.After(v.pool, PoolRun(v, run)) == ServerRuns.After(v, run).pool
    decreases |run|
  {
    if run != [] {
      var w := ServerRuns.Apply(v, run[0]);
      PoolSeesLegalRun(w, run[1..]);
      PoolPartApplies(v, run[0], PoolRun(w, run[1..]));
    }
  }

  /** Every dispatched request is pushed exactly once, and nothing else is. */
  lemma PushedOnce(run: seq<Event>, t: Task)
    requires ServerRuns.Legal(BOOT, run)
    ensures PoolLaws.Submissions(PoolRun(BOOT, run), t) == One(Knows(ServerRuns.After(BOOT, run), t))
  {
    Reached(run);
    PoolSeesLegalRun(BOOT, run);
    PoolLaws.RunConserves(START, PoolRun(BOOT, run), t);
    assert TaskOk(ServerRuns.After(BOOT, run), t);
    assert AllCopies(START, t) == 0;
  }

  // ---------------------------------------------------------------------------------------------
  // Progress
  // ---------------------------------------------------------------------------------------------

  /** There is a worker in every state of the run. */
  ghost predicate Staffed(v: Server, run: seq<Event>)
    requires ServerRuns.Legal(v, run)
    decreases |run|
  {
    v.pool.threads != [] && (run == [] || Staffed(ServerRuns.Apply(v, run[0]), run[1..]))
  }

  lemma {:induction false} StaffedLosesNothing(v: Server, run: seq<Event>)
    requires ServerRuns.Legal(v, run) && Staffed(v, run)
    ensures ServerRuns.After(v, run).pool.lost == v.pool.lost
    decreases |run|
  {
    if run != [] {
      EventLosesNothing(v, run[0]);
      StaffedLosesNothing(ServerRuns.Apply(v, run[0]), run[1..]);
    }
  }

  lemma EventLosesNothing(v: Server, e: Event)
    requires ServerRuns.Enabled(v, e) && v.pool.threads != []
    ensures ServerRuns.Apply(v, e).pool.lost == v.pool.lost
  {
    hide Touched;
    if e.PoolMoves? && e.action.StopEnd? {
      PoolLaws.NoLeftovers(v.pool.retiring);
    }
  }

  /**
    An open session never stalls: either it is reading, with the timer armed and every request
    answered, or its last request is with the pool and, if there was always a worker, is not lost.
   */
  lemma OpenSessionGoesOn(v: Server, run: seq<Event>, sid: nat)
    requires Inv(v) && v.pool.lost == []
    requires ServerRuns.Legal(v, run) && Staffed(v, run) && sid in ServerRuns.After(v, run).sessions
    ensures var w := ServerRuns.After(v, run);
            var s := w.sessions[sid];
            s.open ==>
              if s.reading != NotReading then s.armed && s.written == s.dispatched
              else
                s.dispatched != []
                && var last := Task(sid, |s.dispatched| - 1);
                   InFlight(w.pool, last) == 1 && PoolRuns.Occurs(w.pool.lost, last) == 0
  {
    AlwaysInv(v, run);
    StaffedLosesNothing(v, run);
    var w := ServerRuns.After(v, run);
    assert SessionOk(w.pool, sid, w.sessions[sid]);
    if w.sessions[sid].dispatched != [] {
      assert TaskOk(w, Task(sid, |w.sessions[sid].dispatched| - 1));
    }
  }

  /**
    Nothing but a stop() under way can hold up a session: a task that is due to move finds its request,
    and a push finds its task new.
   */
  lemma OnlyStopDelays(run: seq<Event>, sid: nat, i: Input, slot: Slot)
    requires ServerRuns.Legal(BOOT, run)
    ensures var v := ServerRuns.After(BOOT, run);
            && (PoolRuns.Enabled(v.pool, Advance(slot)) ==> ServerRuns.Enabled(v, TaskMoves(slot)))
            && (sid in v.sessions && Expects(v.sessions[sid], i) ==>
                  (ServerRuns.Enabled(v, Wire(sid, i)) <==> (Dispatches(v.sessions[sid], i) ==> v.pool.retiring == [])))
  {
    Reached(run);
    var v := ServerRuns.After(BOOT, run);
    if PoolRuns.Enabled(v.pool, Advance(slot)) {
      MovingTask(v, slot);
    }
    if sid in v.sessions {
      assert TaskOk(v, Task(sid, |v.sessions[sid].dispatched|));
    }
  }

  // ---------------------------------------------------------------------------------------------
  // After close
  // ---------------------------------------------------------------------------------------------

  /** The one-step fact behind the two laws below. */
  lemma SessionStep(v: Server, e: Event, sid: nat)
    requires ServerRuns.Enabled(v, e) && sid in v.sessions
    ensures sid in ServerRuns.Apply(v, e).sessions
    ensures var s, r := v.sessions[sid], ServerRuns.Apply(v, e).sessions[sid];
            && s.dispatched <= r.dispatched && s.written <= r.written
            && (!s.open ==> !r.open && r.dispatched == s.dispatched && r.written == s.written)
  {
    hide PoolRuns.Apply, PoolRuns.Enabled;
  }

  /** From any state on, requests and responses are only ever appended. */
  lemma {:induction false} HistoriesGrow(v: Server, run: seq<Event>, sid: nat)
    requires ServerRuns.Legal(v, run) && sid in v.sessions
    ensures sid in ServerRuns.After(v, run).sessions
    ensures var s, r := v.sessions[sid], ServerRuns.After(v, run).sessions[sid];
            s.dispatched <= r.dispatched && s.written <= r.written
    decreases |run|
  {
    if run != [] {
      SessionStep(v, run[0], sid);
      HistoriesGrow(ServerRuns.Apply(v, run[0]), run[1..], sid);
    }
  }

  /**
    Once a session is closed, by an error, by its peer's wish or by any timer, stale or not, nothing
    more is dispatched or written, whatever else happens.
   */
  lemma {:induction false} ClosedIsFinal(v: Server, run: seq<Event>, sid: nat)
    requires ServerRuns.Legal(v, run) && sid in v.sessions && !v.sessions[sid].open
    ensures sid in ServerRuns.After(v, run).sessions
    ensures var s, r := v.sessions[sid], ServerRuns.After(v, run).sessions[sid];
            !r.open && r.dispatched == s.dispatched && r.written == s.written
    decreases |run|
  {
    if run != [] {
      SessionStep(v, run[0], sid);
      ClosedIsFinal(ServerRuns.Apply(v, run[0]), run[1..], sid);
    }
  }
}
