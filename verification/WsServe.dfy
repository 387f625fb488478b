/** The serving loop of src/osc-ws.cpp: reassembly of fragmented text messages and control frames in
    between, sections 5.4 and 5.5 of RFC 6455. */
module WsServe {
  import opened Bytes
  import opened WsFrame
  import opened WsConnections

  /** What serving has done that others can see: messages handled, frames given to `send_frame`. */
  datatype Event = Text(message: seq<byte>) | Sent(opcode: nat, payload: seq<byte>)

  /** The `assembling` flag and the `assembled` buffer. */
  datatype Assembly = Assembly(assembling: bool, assembled: seq<byte>)

  const IDLE: Assembly := Assembly(false, [])

  datatype Outcome = Outcome(assembly: Assembly, events: seq<Event>, stop: bool)

  /** One turn of the loop, when the frame that it may send goes out. */
  function HandleFrame(st: Assembly, opcode: nat, fin: bool, payload: seq<byte>): Outcome {
    if opcode == OP_CLOSE then Outcome(st, [Sent(OP_CLOSE, payload)], true)
    else if opcode == OP_PING then Outcome(st, [Sent(OP_PONG, payload)], false)
    else if opcode == OP_PONG || opcode == OP_BINARY then Outcome(st, [], false)
    else if opcode == OP_TEXT then Assembled(payload, fin)
    else if opcode == OP_CONTINUATION then
      if !st.assembling || |st.assembled| + |payload| > MAX_MESSAGE then Outcome(st, [], true)
      else Assembled(st.assembled + payload, fin)
    else Outcome(st, [], true)
  }

  /** A text frame starts a message of its own: what was assembled before is forgotten. */
  lemma TextStartsAnew(st: Assembly, st': Assembly, fin: bool, payload: seq<byte>)
    ensures HandleFrame(st, OP_TEXT, fin, payload) == HandleFrame(st', OP_TEXT, fin, payload)
    ensures fin ==> HandleFrame(st, OP_TEXT, fin, payload).events == [Text(payload)]
  {
  }

  function Assembled(message: seq<byte>, fin: bool): Outcome {
    if fin then Outcome(IDLE, [Text(message)], false)
    else Outcome(Assembly(true, message), [], false)
  }

  /** Where the loop is in its input and what it has done. */
  datatype Config = Config(pos: nat, assembly: Assembly, events: seq<Event>, running: bool)

  predicate Halted(read: Reader, c: Config) {
    !c.running || read(c.pos).NoFrame?
  }

  function Turn(read: Reader, c: Config): Config {
    if Halted(read, c) then c
    else
      var GotFrame(h, payload, next) := read(c.pos);
      var o := HandleFrame(c.assembly, h.opcode, h.fin, payload);
      Config(next, o.assembly, c.events + o.events, !o.stop)
  }

  const START: Config := Config(0, IDLE, [], true)

  /** The loop after `n` turns. */
  function Turns(read: Reader, n: nat): Config {
    if n == 0 then START else Turn(read, Turns(read, n - 1))
  }

  /** One more turn over a frame that was read. */
  lemma TurnsExtend(read: Reader, n: nat, c: Config, frame: FrameRead) returns (c': Config)
    requires c == Turns(read, n) && c.running && frame == read(c.pos) && frame.GotFrame?
    ensures c' == Turns(read, n + 1)
    ensures var o := HandleFrame(c.assembly, frame.header.opcode, frame.header.fin, frame.payload);
            c' == Config(frame.next, o.assembly, c.events + o.events, !o.stop)
  {
    c' := Turn(read, c);
  }

  // ---- what goes out ---------------------------------------------------------

  /** The frames that the first `n` events hand to `send_frame`. */
  function Sends(events: seq<Event>, n: nat): seq<Outgoing>
    requires n <= |events|
  {
    if n == 0 then []
    else
      var e := events[n - 1];
      Sends(events, n - 1) + if e.Sent? then [Outgoing(e.opcode, e.payload)] else []
  }

  /** Those among the first `n` frames on the wire that are not published by other threads: they send
      binary frames only, and the serving thread sends none. */
  function Answers(frames: seq<Outgoing>, n: nat): seq<Outgoing>
    requires n <= |frames|
  {
    if n == 0 then []
    else Answers(frames, n - 1) + if frames[n - 1].opcode != OP_BINARY then [frames[n - 1]] else []
  }

  function AllSends(events: seq<Event>): seq<Outgoing> {
    Sends(events, |events|)
  }

  function AllAnswers(frames: seq<Outgoing>): seq<Outgoing> {
    Answers(frames, |frames|)
  }

  /** The answers on the wire are the frames that were to be sent, in order; when an answer was lost,
      it was the last one, and the loop has done nothing since. */
  predicate OnWire(frames: seq<Outgoing>, events: seq<Event>, lost: bool) {
    if lost then
      events != [] && events[|events| - 1].Sent? && AllAnswers(frames) == Sends(events, |events| - 1)
    else AllAnswers(frames) == AllSends(events)
  }

  lemma {:induction false} SendsPrefix(events: seq<Event>, more: seq<Event>, n: nat)
    requires n <= |events|
    ensures Sends(events + more, n) == Sends(events, n)
    decreases n
  {
    if n > 0 {
      SendsPrefix(events, more, n - 1);
    }
  }

  lemma {:induction false} AnswersPrefix(frames: seq<Outgoing>, more: seq<Outgoing>, n: nat)
    requires n <= |frames|
    ensures Answers(frames + more, n) == Answers(frames, n)
    decreases n
  {
    if n > 0 {
      AnswersPrefix(frames, more, n - 1);
    }
  }

  lemma SendsGrow(events: seq<Event>, e: Event)
    ensures AllSends(events + [e]) == AllSends(events) + if e.Sent? then [Outgoing(e.opcode, e.payload)] else []
    ensures Sends(events + [e], |events|) == AllSends(events)
  {
    SendsPrefix(events, [e], |events|);
  }

  lemma AnswersGrow(frames: seq<Outgoing>, f: Outgoing)
    ensures AllAnswers(frames + [f]) == AllAnswers(frames) + if f.opcode != OP_BINARY then [f] else []
  {
    AnswersPrefix(frames, [f], |frames|);
  }

  // ---- what becomes of a connection ------------------------------------------

  /** A connection that has been accepted and registered. */
  const REGISTERED: Conn := FRESH.(phase := Serving)

  /** A connection in the protocol of all connections, between two critical sections; what its serving
      thread has done; whether the last answer was lost, and whether another thread has closed it. */
  datatype History = History(conn: Conn, events: seq<Event>, lost: bool, shut: bool)

  const BEGINNING: History := History(REGISTERED, [], false, false)

  /** Why an answer may be lost. */
  predicate Disturbed(h: History) {
    h.conn.sendFailed || h.shut
  }

  predicate GoodHistory(h: History) {
    && ConnGood(h.conn) && h.conn.lock == Free && h.conn.phase != Starting
    && OnWire(h.conn.frames, h.events, h.lost)
    && (h.lost || (h.conn.phase == Serving && !h.conn.open) ==> Disturbed(h))
  }

  /** A good history. Saying so this way keeps it out of sight where it is only handed on: it says
      nothing about histories that are not looked at. */
  ghost predicate Sound(h: History) {
    forall g: History {:trigger LookedAt(g)} :: LookedAt(g) && g == h ==> GoodHistory(g)
  }

  predicate LookedAt(h: History) {
    true
  }

  lemma LookAt(h: History)
    requires Sound(h)
    ensures GoodHistory(h)
  {
    assert LookedAt(h);
  }

  type Course = h: History | Sound(h) witness BEGINNING

  /** Another thread publishes a frame, of which `n` bytes are written. */
  function Published(h: History, payload: seq<byte>, n: nat): History
    requires n <= |Wire(Outgoing(OP_BINARY, payload))|
  {
    h.(conn := SendNext(h.conn, Outgoing(OP_BINARY, payload), n))
  }

  lemma PublishedIsSound(h: History, payload: seq<byte>, n: nat)
    requires Sound(h) && n <= |Wire(Outgoing(OP_BINARY, payload))|
    ensures Sound(Published(h, payload, n))
  {
    LookAt(h);
    SendNextKeeps(h.conn, Outgoing(OP_BINARY, payload), n);
    AnswersGrow(h.conn.frames, Outgoing(OP_BINARY, payload));
  }

  /** Another thread closes the connection. */
  function Shut(h: History): History {
    h.(conn := Closed(h.conn), shut := true)
  }

  lemma ShutIsSound(h: History)
    requires Sound(h)
    ensures Sound(Shut(h))
  {
    LookAt(h);
    GoodStep(h.conn, ShutdownClose);
  }

  /** The serving thread sends a frame, of which `n` bytes are written. */
  function Answered(h: History, opcode: nat, payload: seq<byte>, n: nat): History
    requires n <= |Wire(Outgoing(opcode, payload))|
  {
    var c := SendNext(h.conn, Outgoing(opcode, payload), n);
    h.(conn := c, events := h.events + [Sent(opcode, payload)], lost := !c.open)
  }

  lemma AnsweredIsSound(h: History, opcode: nat, payload: seq<byte>, n: nat)
    requires Sound(h) && h.conn.phase == Serving && !h.lost
    requires opcode < 16 && opcode != OP_BINARY && n <= |Wire(Outgoing(opcode, payload))|
    ensures Sound(Answered(h, opcode, payload, n))
  {
    LookAt(h);
    SendNextKeeps(h.conn, Outgoing(opcode, payload), n);
    AnswersGrow(h.conn.frames, Outgoing(opcode, payload));
    SendsGrow(h.events, Sent(opcode, payload));
  }

  /** The serving thread handles a message. */
  function Handled(h: History, message: seq<byte>): History {
    h.(events := h.events + [Text(message)])
  }

  lemma HandledIsSound(h: History, message: seq<byte>)
    requires Sound(h) && !h.lost
    ensures Sound(Handled(h, message)) && AllSends([Text(message)]) == []
  {
    LookAt(h);
    assert [] + [Text(message)] == [Text(message)];
    SendsGrow([], Text(message));
    SendsGrow(h.events, Text(message));
  }

  /** The serving thread comes to its end. */
  function Finished(h: History): History {
    h.(conn := Closed(h.conn).(phase := Done))
  }

  lemma FinishedIsSound(h: History)
    requires Sound(h) && h.conn.phase == Serving
    ensures Sound(Finished(h))
    ensures var c := Finished(h).conn; c.closes <= 1 && (c.closes == 1 <==> !c.sendFailed)
  {
    LookAt(h);
  }

  // ---- the loop --------------------------------------------------------------

  /** One connection, as its serving thread and the other threads use it. */
  class Connection {
    const sock: Socket
    const shutdown: bool   // whether `shutdown_all` is called while it is being served
    var open: bool
    var closes: nat
    var events: seq<Event>
    ghost var course: Course

    ghost predicate Valid()
      reads this, sock
    {
      && open == course.conn.open && closes == course.conn.closes && sock.written == course.conn.written
      && events == course.events
      && (course.conn.sendFailed ==> sock.failed) && (course.shut ==> shutdown)
    }

    constructor (sock: Socket, shutdown: bool)
      requires sock.written == []
      ensures this.sock == sock && this.shutdown == shutdown && Valid() && course == BEGINNING
    {
      this.sock, this.shutdown := sock, shutdown;
      open, closes, events := true, 0, [];
      course := BEGINNING;
    }

    /** `send_frame` under the write mutex, on a connection in the state `c`: a whole frame, or a prefix
        of one and never again. */
    method SendFrame(opcode: nat, payload: seq<byte>, ghost c: Conn) returns (ok: bool, ghost n: nat)
      requires opcode < 16 && |payload| < Pow256(8) && c.open == open && c.written == sock.written
      modifies this`open, sock`written, sock`failed
      ensures n <= |Wire(Outgoing(opcode, payload))|
      ensures var c' := SendNext(c, Outgoing(opcode, payload), n);
              ok == open == c'.open && sock.written == c'.written
      ensures sock.failed == (old(sock.failed) || (old(open) && !ok))
    {
      n := 0;
      if !open {
        return false, n;
      }
      var frame := BuildFrame(opcode, payload);
      ok, n := sock.SendAll(frame);
      if !ok {
        open := false;
      }
      assert n == |frame| ==> frame[..n] == frame;
    }

    /** `close_conn` under the write mutex: after a failed send it closes nothing. */
    method CloseConn()
      modifies this`open, this`closes
      ensures !open && closes == old(closes) + if old(open) then 1 else 0
    {
      var was := open;
      open := false;
      if !was {
        return;
      }
      closes := closes + 1;
    }

    /** `send_binary`. */
    method Publish(payload: seq<byte>)
      requires Valid() && |payload| < Pow256(8)
      modifies this`open, this`course, sock`written, sock`failed
      ensures Valid() && exists n: nat :: n <= |Wire(Outgoing(OP_BINARY, payload))| &&
                                          course == Published(old(course), payload, n)
    {
      var ok, n := SendFrame(OP_BINARY, payload, course.conn);
      PublishedIsSound(course, payload, n);
      course := Published(course, payload, n);
    }

    /** What `shutdown_all` does to it. */
    method ShutDown()
      requires Valid() && shutdown
      modifies this`open, this`closes, this`course
      ensures Valid() && course == Shut(old(course))
    {
      CloseConn();
      ShutIsSound(course);
      course := Shut(course);
    }

    /** What other threads may do between two critical sections of the serving thread: publishers send
        any number of binary frames, `shutdown_all`, if it is called, closes the connection. */
    method Others()
      requires Valid()
      modifies this`open, this`closes, this`course, sock`written, sock`failed
      ensures Valid() && course.conn.phase == old(course.conn.phase) && course.lost == old(course.lost)
    {
      var calls: nat :| true;
      for i := 0 to calls
        invariant Valid() && course.conn.phase == old(course.conn.phase) && course.lost == old(course.lost)
        invariant events == old(events)
      {
        var close: bool := *;
        if shutdown && close {
          ShutDown();
        } else {
          var payload: seq<byte> :| |payload| < Pow256(8);
          Publish(payload);
        }
      }
    }

    /** `serve` after the handshake, with other threads at work. It has done what `n` turns do, and it has
        come to their halt unless its last answer was lost; an answer is lost only when the socket has
        refused some bytes or `shutdown_all` was called. */
    method Serve() returns (ghost n: nat)
      requires sock.Valid() && sock.pos == 0 && Valid() && course == BEGINNING
      modifies this, sock
      ensures events == Turns(ReaderOf(sock.stream), n).events
      ensures course.lost || Halted(ReaderOf(sock.stream), Turns(ReaderOf(sock.stream), n))
      ensures OnWire(course.conn.frames, events, course.lost) && (course.lost ==> sock.failed || shutdown)
      ensures Valid() && course.conn.phase == Done
      ensures closes <= 1 && (closes == 1 <==> !course.conn.sendFailed)
    {
      ghost var c;
      n, c := Loop();
      Finish();
      LookAt(course);
    }

    /** Its loop; `c` is where it stopped. */
    method Loop() returns (ghost n: nat, ghost c: Config)
      requires sock.Valid() && sock.pos == 0 && Valid() && course == BEGINNING
      modifies this, sock
      ensures c == Turns(ReaderOf(sock.stream), n) && (course.lost || Halted(ReaderOf(sock.stream), c))
      ensures Valid() && course.conn.phase == Serving && events == c.events
    {
      n, c := 0, START;
      var st := IDLE;
      var running := true;
      while running
        invariant sock.Valid() && Valid() && course.conn.phase == Serving
        invariant c == Turns(ReaderOf(sock.stream), n) && events == c.events && st == c.assembly
        invariant running == (c.running && !course.lost) && (running ==> sock.pos == c.pos)
        decreases running, |sock.stream| - sock.pos
      {
        var read;
        read, st, running, c := TakeTurn(st, n, c);
        if !read {
          break;
        }
        n := n + 1;
      }
    }

    /** One turn: the next frame, if one can be read, is taken. */
    method TakeTurn(st: Assembly, ghost n: nat, ghost c: Config)
      returns (read: bool, st': Assembly, running: bool, ghost c': Config)
      requires sock.Valid() && Valid() && course.conn.phase == Serving && !course.lost
      requires c == Turns(ReaderOf(sock.stream), n) && events == c.events && st == c.assembly
      requires c.running && sock.pos == c.pos
      modifies this, sock
      ensures sock.Valid() && Valid() && course.conn.phase == Serving
      ensures c' == Turns(ReaderOf(sock.stream), if read then n + 1 else n)
      ensures events == c'.events && st' == c'.assembly && running == (c'.running && !course.lost)
      ensures if read then sock.pos == c'.pos > c.pos else Halted(ReaderOf(sock.stream), c')
    {
      var frame := ReadFrame(sock);
      if frame.NoFrame? {
        return false, st, true, c;
      }
      c' := TurnsExtend(ReaderOf(sock.stream), n, c, frame);
      st', running := TakeAmidOthers(st, frame.header.opcode, frame.header.fin, frame.payload);
      read := true;
    }

    /** The end of `serve`: other threads may still act, and then comes the final `close_conn`. */
    method Finish()
      requires Valid() && course.conn.phase == Serving
      modifies this`open, this`closes, this`course, sock`written, sock`failed
      ensures Valid() && course.conn.phase == Done && course.lost == old(course.lost)
      ensures closes <= 1 && (closes == 1 <==> !course.conn.sendFailed)
    {
      Others();
      CloseConn();
      FinishedIsSound(course);
      course := Finished(course);
    }

    /** The switch, after whatever other threads have done since the last one. */
    method TakeAmidOthers(st: Assembly, opcode: nat, fin: bool, payload: seq<byte>)
      returns (st': Assembly, running: bool)
      requires Valid() && course.conn.phase == Serving && !course.lost && |payload| <= MAX_MESSAGE
      modifies this, sock`written, sock`failed
      ensures Valid() && course.conn.phase == Serving
      ensures var o := HandleFrame(st, opcode, fin, payload);
              st' == o.assembly && events == old(events) + o.events && running == (!course.lost && !o.stop)
    {
      Others();
      st', running := TakeFrame(st, opcode, fin, payload);
    }

    /** The switch over the opcode. An answer that is not lost is written, and without one nothing is. */
    method TakeFrame(st: Assembly, opcode: nat, fin: bool, payload: seq<byte>)
      returns (st': Assembly, running: bool)
      requires Valid() && course.conn.phase == Serving && !course.lost && |payload| <= MAX_MESSAGE
      modifies this`open, this`course, this`events, sock`written, sock`failed
      ensures Valid() && course.conn.phase == Serving
      ensures var o := HandleFrame(st, opcode, fin, payload);
              && st' == o.assembly && events == old(events) + o.events && running == (!course.lost && !o.stop)
              && (!course.lost ==> sock.written == old(sock.written) + Concat(AllSends(o.events)))
              && (course.lost ==> AllSends(o.events) != [] && !open)
      ensures course.shut == old(course.shut)
    {
      st', running := st, true;
      if opcode == OP_CLOSE {
        var sent := Answer(OP_CLOSE, payload);
        running := false;
      } else if opcode == OP_PING {
        running := Answer(OP_PONG, payload);
      } else if opcode == OP_PONG || opcode == OP_BINARY {
      } else if opcode == OP_TEXT || opcode == OP_CONTINUATION {
        var assembled := payload;
        if opcode == OP_CONTINUATION {
          if !st.assembling || |st.assembled| + |payload| > MAX_MESSAGE {
            return st, false;
          }
          assembled := st.assembled + payload;
        }
        st' := Assemble(assembled, fin);
      } else {
        running := false;
      }
    }

    /** A message grows by a fragment, and is handled after the last one. */
    method Assemble(assembled: seq<byte>, fin: bool) returns (st: Assembly)
      requires Valid() && !course.lost
      modifies this`events, this`course
      ensures Valid() && course.conn == old(course.conn) && !course.lost && course.shut == old(course.shut)
      ensures var o := Assembled(assembled, fin);
              st == o.assembly && events == old(events) + o.events && AllSends(o.events) == []
    {
      if fin {
        HandledIsSound(course, assembled);
        events := events + [Text(assembled)];
        course := Handled(course, assembled);
        st := IDLE;
      } else {
        st := Assembly(true, assembled);
      }
    }

    /** A frame that the serving thread sends back. */
    method Answer(opcode: nat, payload: seq<byte>) returns (ok: bool)
      requires Valid() && course.conn.phase == Serving && !course.lost
      requires opcode < 16 && opcode != OP_BINARY && |payload| <= MAX_MESSAGE
      modifies this`open, this`course, this`events, sock`written, sock`failed
      ensures Valid() && course.conn.phase == Serving && ok == !course.lost && (!ok ==> !open)
      ensures course.shut == old(course.shut)
      ensures events == old(events) + [Sent(opcode, payload)]
      ensures AllSends([Sent(opcode, payload)]) == [Outgoing(opcode, payload)]
      ensures ok ==> sock.written == old(sock.written) + Concat(AllSends([Sent(opcode, payload)]))
    {
      LengthFits(|payload|);
      ghost var n;
      ok, n := SendFrame(opcode, payload, course.conn);
      AnsweredIsSound(course, opcode, payload, n);
      SingleSend(opcode, payload);
      events := events + [Sent(opcode, payload)];
      course := Answered(course, opcode, payload, n);
    }
  }

  lemma SingleSend(opcode: nat, payload: seq<byte>)
    ensures AllSends([Sent(opcode, payload)]) == [Outgoing(opcode, payload)]
    ensures Concat(AllSends([Sent(opcode, payload)])) == Wire(Outgoing(opcode, payload))
  {
    var f := Outgoing(opcode, payload);
    assert [] + [Sent(opcode, payload)] == [Sent(opcode, payload)];
    SendsGrow([], Sent(opcode, payload));
    assert [] + [f] == [f];
    ConcatGrows([], f);
    assert Concat([]) == [];
  }
}
