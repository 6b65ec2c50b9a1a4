/**
  The server side of a session, source/net/http_session.cpp: run_process and the callbacks that it
  leaves behind. A pending asynchronous operation is a value of `reading`; its completion handler is
  a method that the environment calls. Error code 0 is success.
 */
module Sessions {
  import opened Outcomes
  import opened Requests
  import opened Numerals

  const CANCELED: nat := 125 // the only code that is_errors ignores
  const NOT_CONNECTED: nat := 107
  const NOT_SUPPORTED: nat := 95

  datatype Reading = NotReading | Headers | Body(message: Message)

  datatype Session = Session(
    open: bool,                // socket_
    armed: bool,               // timeout_timer_ is waiting
    reading: Reading,          // the read operation that is under way
    dispatched: seq<Message>,  // the requests handed to the pool so far
    written: seq<Message>)     // the requests whose responses were written, in the order of writing

  const NEW := Session(true, false, NotReading, [], [])

  predicate Fatal(ec: nat) {
    ec != 0 && ec != CANCELED
  }

  predicate Closes(m: Message) {
    "connection" in m.fields && (m.fields["connection"] == "close" || m.fields["connection"] == "Close")
  }

  predicate Chunked(m: Message) {
    "content-length" !in m.fields && "transfer-encoding" in m.fields && m.fields["transfer-encoding"] == "chunked"
  }

  /** is_errors: the session goes on if and only if it is still open afterwards. */
  function Checked(s: Session, ec: nat): Session {
    s.(armed := false, open := s.open && !Fatal(ec))
  }

  function Loop(s: Session): Session {
    if s.open then s.(reading := Headers, armed := true) else s.(armed := false)
  }

  function Dispatch(s: Session, m: Message): Session {
    s.(dispatched := s.dispatched + [m])
  }

  /** How much of an announced body a buffer with so many bytes of it lacks; std::stoull may throw. */
  function Missing(m: Message, buffered: nat): Result<nat> {
    if "content-length" !in m.fields then Ok(0)
    else
      var n := StoUll(m.fields["content-length"]);
      if n.Err? then Err(n.error) else Ok((n.value - buffered) % SIZE_LIMIT) // size_t arithmetic
  }

  /** The header read ends, with so many bytes behind the head in its buffer. After a throw nothing follows. */
  function HeadersRead(s: Session, ec: nat, m: Message, buffered: nat): Session {
    var c := Checked(s, ec).(reading := NotReading);
    var missing := Missing(m, buffered);
    if !c.open || missing.Err? then c
    else if missing.value > 0 then c.(reading := Body(m), armed := true)
    else if Chunked(m) then Checked(c, NOT_SUPPORTED)
    else Dispatch(c, m)
  }

  /** The body read ends. */
  function BodyRead(s: Session, ec: nat): Session
    requires s.reading.Body?
  {
    var c := Checked(s, ec).(reading := NotReading);
    if c.open then Dispatch(c, s.reading.message) else c
  }

  /** send_response for the request m: every request gets a response, be it 404 or 500. */
  function Respond(s: Session, m: Message): Session {
    if s.open then s.(written := s.written + [m], armed := true) else s
  }

  /** What a session's lambda does after its response. */
  function Conclude(s: Session, m: Message): Session {
    if Closes(m) then s.(open := false) else Loop(s)
  }

  /** The timer handler, which may have been on its way when the timer was cancelled. */
  function TimerFired(s: Session, ec: nat): Session {
    if ec == 0 then s.(open := false) else s
  }

  // ---------------------------------------------------------------------------------------------
  // The object
  // ---------------------------------------------------------------------------------------------

  class HttpSession {
    var open: bool
    var armed: bool
    var reading: Reading
    var dispatched: seq<Message>
    var written: seq<Message>

    ghost function View(): Session
      reads this
    {
      Session(open, armed, reading, dispatched, written)
    }

    constructor ()
      ensures View() == NEW
    {
      open, armed, reading, dispatched, written := true, false, NotReading, [], [];
    }

    method Close()
      modifies this
      ensures View() == old(View()).(open := false)
    {
      if !open {
        return;
      }
      open := false;
    }

    method IsErrors(ec: nat) returns (failed: bool)
      modifies this
      ensures View() == Checked(old(View()), ec)
      ensures failed == !open == ((ec != 0 && ec != 125) || !old(open)) && !armed
    {
      armed := false;
      if ec != 0 && ec != CANCELED {
        Close();
        return true;
      }
      failed := !open;
    }

    method RunTimeoutTimer()
      modifies this
      ensures View() == old(View()).(armed := true)
    {
      armed := true;
    }

    method OnTimer(ec: nat)
      modifies this
      ensures View() == TimerFired(old(View()), ec)
    {
      if ec == 0 {
        Close();
      }
    }

    /** Cancels the timer and starts to read a request. */
    method RunProcess()
      modifies this
      ensures View() == Loop(old(View()))
    {
      armed := false;
      if !open {
        OnRequest(NOT_CONNECTED, None);
        return;
      }
      reading := Headers;
      RunTimeoutTimer();
    }

    /**
      The callback of run_process. A null request comes only with a fatal error or a closed socket, so
      it is never dispatched.
     */
    method OnRequest(ec: nat, request: Option<Message>)
      requires request == None ==> Fatal(ec) || !open
      modifies this
      ensures var c := Checked(old(View()), ec);
              View() == if c.open && request.Some? then Dispatch(c, request.value) else c
    {
      var failed := IsErrors(ec);
      if failed {
        return;
      }
      dispatched := dispatched + [request.value];
    }

    /**
      The handler of async_read_until, which parsed `message` out of the buffer. An error is the
      exception of std::stoull, which nobody catches.
     */
    method OnHeaders(ec: nat, message: Message, buffered: nat) returns (r: Result<()>)
      modifies this
      ensures View() == HeadersRead(old(View()), ec, message, buffered)
      ensures r.Err? <==> open && Missing(message, buffered).Err?
      ensures old(open) && (ec == 0 || ec == 125) && "content-length" in message.fields && buffered < SIZE_LIMIT ==>
                var n := StoUll(message.fields["content-length"]);
                n.Ok? ==>
                  if n.value != buffered then
                    open && armed && reading == Body(message) && dispatched == old(dispatched)
                  else
                    open && reading == NotReading && dispatched == old(dispatched) + [message]
      ensures old(open) && (ec == 0 || ec == 125) && "content-length" !in message.fields ==>
                if "transfer-encoding" in message.fields && message.fields["transfer-encoding"] == "chunked" then
                  !open && dispatched == old(dispatched)
                else
                  open && reading == NotReading && dispatched == old(dispatched) + [message]
      ensures written == old(written)
    {
      hide StoUll;
      reading := NotReading;
      r := Ok(());
      var failed := IsErrors(ec);
      if failed {
        OnRequest(ec, None);
        return;
      }
      if Chunked(message) {
        OnRequest(NOT_SUPPORTED, Some(message));
        return;
      }
      if "content-length" in message.fields {
        var length := StoUll(message.fields["content-length"]);
        if length.Err? {
          return Err(length.error);
        }
        var missing := (length.value - buffered) % SIZE_LIMIT;
        if missing > 0 {
          RunTimeoutTimer();
          reading := Body(message);
          return;
        }
      }
      OnRequest(0, Some(message));
    }

    /** The rest of do_read_body, after its blocking read. */
    method OnBody(ec: nat)
      requires reading.Body?
      modifies this
      ensures View() == BodyRead(old(View()), ec)
      ensures if old(open) && (ec == 0 || ec == 125) then open && dispatched == old(dispatched) + [old(reading).message]
              else !open && dispatched == old(dispatched)
    {
      var message := reading.message;
      reading := NotReading;
      var failed := IsErrors(ec);
      if failed {
        OnRequest(ec, Some(message));
        return;
      }
      OnRequest(0, Some(message));
    }

    method SendResponse(request: Message)
      modifies this
      ensures written == if old(open) then old(written) + [request] else old(written)
      ensures View() == Respond(old(View()), request)
    {
      if !open {
        return;
      }
      written := written + [request];
      RunTimeoutTimer();
    }

    /** The tail of the lambda that was pushed. */
    method AfterResponse(request: Message)
      modifies this
      ensures "connection" in request.fields && request.fields["connection"] in ["close", "Close"] ==> !open
      ensures !("connection" in request.fields && request.fields["connection"] in ["close", "Close"]) && old(open) ==>
                open && reading == Headers && armed
      ensures View() == Conclude(old(View()), request)
    {
      if Closes(request) {
        Close();
      } else {
        RunProcess();
      }
    }
  }
}
