/** What a client's frames mean to the serving loop: any fragmentation, masking and interleaving of
    control frames delivers the original messages and answers the pings. */
module WsReassembly {
  import opened Bytes
  import opened WsFrame
  import opened WsConnections
  import opened WsServe

  /** A message as the fragments it is sent in. */
  type Fragments = seq<seq<byte>>

  /** The first `j` fragments, joined. */
  function Joined(fragments: Fragments, j: nat): seq<byte>
    requires j <= |fragments|
  {
    if j == 0 then [] else Joined(fragments, j - 1) + fragments[j - 1]
  }

  /** Messages the server has to deliver: at least one fragment, and not too long. */
  predicate Deliverable(messages: seq<Fragments>) {
    forall m :: 0 <= m < |messages| ==> messages[m] != [] && |Joined(messages[m], |messages[m]|)| <= 8192
  }

  /** Frames that may come anywhere, also between the fragments of a message. */
  predicate Interleaves(f: Frame) {
    f.opcode == OP_PING || f.opcode == OP_PONG || f.opcode == OP_BINARY
  }

  /** Section 5.4 of RFC 6455: a text frame, continuations, the final bit on the last fragment. Says
      that `fs[k..]` carries the messages from fragment `j` of message `m` on. The first `done` messages
      are carried to their end; there may be one more whose last fragments never come. */
  predicate Carries(fs: seq<Frame>, k: nat, messages: seq<Fragments>, m: nat, j: nat, done: nat)
    requires k <= |fs|
    decreases |fs| - k
  {
    if k == |fs| then m == done && |messages| == if j == 0 then done else done + 1
    else if Interleaves(fs[k]) then Carries(fs, k + 1, messages, m, j, done)
    else
      && m < |messages| && j < |messages[m]|
      && fs[k].opcode == (if j == 0 then OP_TEXT else OP_CONTINUATION)
      && fs[k].payload == messages[m][j]
      && fs[k].fin == (j + 1 == |messages[m]|)
      && (if fs[k].fin then Carries(fs, k + 1, messages, m + 1, 0, done)
          else Carries(fs, k + 1, messages, m, j + 1, done))
  }

  /** What the frames from the `k`-th on make the loop do, when no answer is lost. */
  datatype Served = Served(events: seq<Event>, assembly: Assembly, running: bool)

  function ServeFrames(fs: seq<Frame>, k: nat, st: Assembly): Served
    requires k <= |fs|
    decreases |fs| - k
  {
    if k == |fs| then Served([], st, true)
    else
      var o := HandleFrame(st, fs[k].opcode, fs[k].fin, fs[k].payload);
      if o.stop then Served(o.events, o.assembly, false)
      else
        var rest := ServeFrames(fs, k + 1, o.assembly);
        Served(o.events + rest.events, rest.assembly, rest.running)
  }

  /** What the loop should do: a whole message where its last fragment comes, a pong where a ping comes. */
  function Expected(fs: seq<Frame>, k: nat, messages: seq<Fragments>, m: nat): seq<Event>
    requires k <= |fs|
    decreases |fs| - k
  {
    if k == |fs| then []
    else if fs[k].opcode == OP_PING then [Sent(OP_PONG, fs[k].payload)] + Expected(fs, k + 1, messages, m)
    else if Interleaves(fs[k]) || !fs[k].fin || m >= |messages| then Expected(fs, k + 1, messages, m)
    else [Text(Joined(messages[m], |messages[m]|))] + Expected(fs, k + 1, messages, m + 1)
  }

  /** The buffer after `j` fragments of a message. */
  function Buffer(fragments: Fragments, j: nat): Assembly
    requires j <= |fragments|
  {
    if j == 0 then IDLE else Assembly(true, Joined(fragments, j))
  }

  lemma {:induction false} JoinedGrows(fragments: Fragments, i: nat, j: nat)
    requires i <= j <= |fragments|
    ensures |Joined(fragments, i)| <= |Joined(fragments, j)|
    decreases j
  {
    if i < j {
      JoinedGrows(fragments, i, j - 1);
    }
  }

  function At(messages: seq<Fragments>, m: nat): Fragments {
    if m < |messages| then messages[m] else []
  }

  /** How many fragments of an unfinished message there are when the frames have ended. */
  function Unfinished(fs: seq<Frame>, k: nat, j: nat): nat
    requires k <= |fs|
    decreases |fs| - k
  {
    if k == |fs| then j
    else if Interleaves(fs[k]) then Unfinished(fs, k + 1, j)
    else if fs[k].fin then Unfinished(fs, k + 1, 0)
    else Unfinished(fs, k + 1, j + 1)
  }

  /** From any point inside a conversation the loop does what it should, and is left with the fragments
      of the unfinished message, if there is one. */
  lemma {:induction false} ServesConversation(fs: seq<Frame>, k: nat, messages: seq<Fragments>, m: nat, j: nat,
                                              done: nat)
    requires k <= |fs| && Deliverable(messages) && j <= |At(messages, m)|
    requires Carries(fs, k, messages, m, j, done)
    ensures Unfinished(fs, k, j) <= |At(messages, done)|
    ensures ServeFrames(fs, k, Buffer(At(messages, m), j)) ==
            Served(Expected(fs, k, messages, m), Buffer(At(messages, done), Unfinished(fs, k, j)), true)
    decreases |fs| - k
  {
    if k < |fs| {
      if Interleaves(fs[k]) {
        ServesConversation(fs, k + 1, messages, m, j, done);
        assert [] + Expected(fs, k + 1, messages, m) == Expected(fs, k + 1, messages, m);
      } else {
        FragmentTaken(fs[k], messages[m], j);
        if fs[k].fin {
          ServesConversation(fs, k + 1, messages, m + 1, 0, done);
        } else {
          ServesConversation(fs, k + 1, messages, m, j + 1, done);
          assert [] + Expected(fs, k + 1, messages, m) == Expected(fs, k + 1, messages, m);
        }
      }
    }
  }

  lemma FragmentTaken(f: Frame, fragments: Fragments, j: nat)
    requires j < |fragments| && |Joined(fragments, |fragments|)| <= MAX_MESSAGE
    requires f.opcode == (if j == 0 then OP_TEXT else OP_CONTINUATION) && f.payload == fragments[j]
    requires f.fin == (j + 1 == |fragments|)
    ensures HandleFrame(Buffer(fragments, j), f.opcode, f.fin, f.payload) ==
            Assembled(Joined(fragments, j + 1), f.fin)
  {
    JoinedGrows(fragments, j + 1, |fragments|);
    assert Joined(fragments, j + 1) == Joined(fragments, j) + f.payload;
    if j == 0 {
      assert [] + f.payload == f.payload;
    }
  }

  // ---- from frames to bytes --------------------------------------------------

  predicate AllWellFormed(fs: seq<Frame>) {
    forall k :: 0 <= k < |fs| ==> WellFormed(fs[k])
  }

  function Encodings(fs: seq<Frame>): seq<seq<byte>>
    requires AllWellFormed(fs)
  {
    seq(|fs|, i requires 0 <= i < |fs| => EncodeFrame(fs[i]))
  }

  /** The reader finds the frames from the `k`-th on one behind the other, from `pos` to `end`. */
  predicate Finds(read: Reader, pos: nat, fs: seq<Frame>, k: nat, end: nat)
    requires k <= |fs|
    decreases |fs| - k
  {
    if k == |fs| then pos == end
    else
      match read(pos)
      case NoFrame => false
      case GotFrame(h, payload, next) =>
        && h.opcode == fs[k].opcode && h.fin == fs[k].fin && payload == fs[k].payload
        && Finds(read, next, fs, k + 1, end)
  }

  /** Wherever the `i`-th part lies, the `i`-th frame is found. */
  ghost predicate FindsParts(read: Reader, d: seq<byte>, parts: seq<seq<byte>>, fs: seq<Frame>) {
    && |parts| == |fs|
    && forall i, pos: nat :: 0 <= i < |fs| && Holds(d, pos, parts[i]) ==>
         FindsOne(read, pos, fs[i], pos + |parts[i]|)
  }

  predicate FindsOne(read: Reader, pos: nat, f: Frame, end: nat) {
    match read(pos)
    case NoFrame => false
    case GotFrame(h, payload, next) => h.opcode == f.opcode && h.fin == f.fin && payload == f.payload && next == end
  }

  lemma EncodingsAreFound(d: seq<byte>, fs: seq<Frame>)
    requires AllWellFormed(fs)
    ensures FindsParts(ReaderOf(d), d, Encodings(fs), fs)
  {
    forall i, pos: nat | 0 <= i < |fs| && Holds(d, pos, Encodings(fs)[i])
      ensures FindsOne(ReaderOf(d), pos, fs[i], pos + |Encodings(fs)[i]|)
    {
      FrameReads(d, pos, fs[i]);
    }
  }

  lemma {:induction false} FindsChained(d: seq<byte>, read: Reader, pos: nat, parts: seq<seq<byte>>, fs: seq<Frame>,
                                        k: nat, end: nat)
    requires k <= |fs| && FindsParts(read, d, parts, fs) && Chained(d, pos, parts, k, end)
    ensures Finds(read, pos, fs, k, end)
    decreases |fs| - k
  {
    if k < |fs| {
      assert FindsOne(read, pos, fs[k], pos + |parts[k]|);
      FindsChained(d, read, pos + |parts[k]|, parts, fs, k + 1, end);
    }
  }

  /** After `n` turns over the frames, the loop stands at the `n`-th frame and what it has done and will
      do add up. */
  lemma {:induction false} TurnsServe(read: Reader, fs: seq<Frame>, end: nat, n: nat) returns (c: Config)
    requires Finds(read, 0, fs, 0, end) && ServeFrames(fs, 0, IDLE).running && n <= |fs|
    ensures c == Turns(read, n)
    ensures c.running && Finds(read, c.pos, fs, n, end) && Continues(fs, n, c.assembly, c.events)
    decreases n
  {
    if n > 0 {
      c := TurnsServe(read, fs, end, n - 1);
      c := TurnServes(read, fs, end, n - 1, c);
    } else {
      c := START;
      NothingDoneYet(fs);
    }
  }

  lemma NothingDoneYet(fs: seq<Frame>)
    requires ServeFrames(fs, 0, IDLE).running
    ensures Continues(fs, 0, IDLE, [])
  {
    var events := ServeFrames(fs, 0, IDLE).events;
    assert [] + events == events;
  }

  /** With these events done, the frames from the `k`-th on complete what all of them make the loop do. */
  predicate Continues(fs: seq<Frame>, k: nat, st: Assembly, events: seq<Event>)
    requires k <= |fs|
  {
    var rest, all := ServeFrames(fs, k, st), ServeFrames(fs, 0, IDLE);
    rest.running && events + rest.events == all.events && rest.assembly == all.assembly
  }

  lemma TurnServes(read: Reader, fs: seq<Frame>, end: nat, k: nat, c: Config) returns (c': Config)
    requires k < |fs| && c.running && Finds(read, c.pos, fs, k, end) && Continues(fs, k, c.assembly, c.events)
    ensures !Halted(read, c) && c' == Turn(read, c)
    ensures c'.running && Finds(read, c'.pos, fs, k + 1, end) && Continues(fs, k + 1, c'.assembly, c'.events)
  {
    c' := Turn(read, c);
    var o := HandleFrame(c.assembly, fs[k].opcode, fs[k].fin, fs[k].payload);
    Associative(c.events, o.events, ServeFrames(fs, k + 1, o.assembly).events);
  }

  // ---- how a stream ends -----------------------------------------------------

  /** Behind the frames of a conversation the stream ends, whole or inside a frame, or goes on with what
      is no frame to the server; or there is a frame at which the server stops, and then anything. */
  datatype Ending = Silence(tail: seq<byte>) | Stopping(last: Frame, tail: seq<byte>)

  /** The frames at which the server stops, `j` fragments into a message: a closing frame, a continuation
      of nothing or of too much, and any other opcode that it does not know. */
  predicate Stops(f: Frame, fragments: Fragments, j: nat)
    requires j <= |fragments|
  {
    || f.opcode == OP_CLOSE
    || (f.opcode == OP_CONTINUATION && (j == 0 || |Joined(fragments, j)| + |f.payload| > 8192))
    || !(Interleaves(f) || f.opcode == OP_TEXT || f.opcode == OP_CONTINUATION)
  }

  /** A closing frame is echoed. */
  lemma StopsIff(f: Frame, fragments: Fragments, j: nat)
    requires j <= |fragments|
    ensures var o := HandleFrame(Buffer(fragments, j), f.opcode, f.fin, f.payload);
            && (o.stop <==> Stops(f, fragments, j))
            && (o.stop ==> o.events == if f.opcode == OP_CLOSE then [Sent(OP_CLOSE, f.payload)] else [])
  {
  }

  predicate ValidEnding(e: Ending) {
    e.Stopping? ==> WellFormed(e.last)
  }

  function EndBytes(e: Ending): seq<byte>
    requires ValidEnding(e)
  {
    match e
    case Silence(tail) => tail
    case Stopping(last, tail) => EncodeFrame(last) + tail
  }

  function EndEvents(e: Ending): seq<Event> {
    if e.Stopping? && e.last.opcode == OP_CLOSE then [Sent(OP_CLOSE, e.last.payload)] else []
  }

  /** A client's stream: a conversation and an ending. */
  function Stream(fs: seq<Frame>, e: Ending): seq<byte>
    requires AllWellFormed(fs) && ValidEnding(e)
  {
    Flat(Encodings(fs)) + EndBytes(e)
  }

  /** The conversation carries the messages, of which the first `done` come to their end, and then the
      stream ends. There are never more unfinished fragments than the next message has. */
  predicate Converses(fs: seq<Frame>, messages: seq<Fragments>, done: nat, e: Ending) {
    && AllWellFormed(fs) && Deliverable(messages) && Carries(fs, 0, messages, 0, 0, done) && ValidEnding(e)
    && Unfinished(fs, 0, 0) <= |At(messages, done)|
    && match e
       case Silence(_) => ParseFrame(Stream(fs, e), |Flat(Encodings(fs))|).NoFrame?
       case Stopping(last, _) => Stops(last, At(messages, done), Unfinished(fs, 0, 0))
  }

  /** Where the frames end there is the last frame, or nothing that could be read. */
  predicate Ends(read: Reader, pos: nat, e: Ending) {
    match e
    case Silence(_) => read(pos).NoFrame?
    case Stopping(last, _) =>
      match read(pos)
      case NoFrame => false
      case GotFrame(h, payload, _) => h.opcode == last.opcode && h.fin == last.fin && payload == last.payload
  }

  lemma StoppingEnds(d: seq<byte>, pos: nat, last: Frame, tail: seq<byte>)
    requires WellFormed(last) && Holds(d, pos, EncodeFrame(last) + tail)
    ensures Ends(ReaderOf(d), pos, Stopping(last, tail))
  {
    HoldsBoth(d, pos, EncodeFrame(last), tail);
    FrameReads(d, pos, last);
  }

  /** A stream that ends with the last frame, or inside one more, ends in silence. */
  lemma CutStreamIsSilent(fs: seq<Frame>, f: Frame, n: nat)
    requires AllWellFormed(fs) && WellFormed(f) && n < |EncodeFrame(f)|
    ensures ParseFrame(Stream(fs, Silence(EncodeFrame(f)[..n])), |Flat(Encodings(fs))|).NoFrame?
  {
    FlatInFront(Encodings(fs), EncodeFrame(f)[..n]);
    CutFrameIsNoFrame(Stream(fs, Silence(EncodeFrame(f)[..n])), |Flat(Encodings(fs))|, f, n);
  }

  /** The last frame, if there is one, makes the loop stop in the state that the frames leave it in. */
  predicate LastStops(fs: seq<Frame>, e: Ending) {
    e.Stopping? ==>
      var o := HandleFrame(ServeFrames(fs, 0, IDLE).assembly, e.last.opcode, e.last.fin, e.last.payload);
      o.stop && o.events == EndEvents(e)
  }

  /** What the loop has done in the end, however many turns it took. */
  function Whole(fs: seq<Frame>, e: Ending): seq<Event> {
    ServeFrames(fs, 0, IDLE).events + EndEvents(e)
  }

  /** The turns after the conversation: one for a last frame, else none. */
  lemma {:induction false} TurnsAtTheEnd(read: Reader, fs: seq<Frame>, end: nat, e: Ending, n: nat)
    requires Finds(read, 0, fs, 0, end) && ServeFrames(fs, 0, IDLE).running && LastStops(fs, e)
    requires Ends(read, end, e) && n >= |fs| && (n == |fs| ==> e.Silence?)
    ensures Halted(read, Turns(read, n)) && Turns(read, n).events == Whole(fs, e)
    decreases n
  {
    if n == |fs| || (n - 1 == |fs| && e.Stopping?) {
      var c := TurnsServe(read, fs, end, |fs|);
      assert c.events + [] == c.events;
    } else {
      TurnsAtTheEnd(read, fs, end, e, n - 1);
    }
  }

  /** At every moment the loop has done an initial part of the whole, and all of it when it has come to
      its halt. */
  lemma PartThenWhole(read: Reader, fs: seq<Frame>, end: nat, e: Ending, n: nat)
    requires Finds(read, 0, fs, 0, end) && ServeFrames(fs, 0, IDLE).running && LastStops(fs, e)
    requires Ends(read, end, e)
    ensures Turns(read, n).events <= Whole(fs, e)
    ensures Halted(read, Turns(read, n)) ==> Turns(read, n).events == Whole(fs, e)
  {
    if n <= |fs| {
      var c := TurnsServe(read, fs, end, n);
    }
    if n > |fs| || (n == |fs| && e.Silence?) {
      TurnsAtTheEnd(read, fs, end, e, n);
    }
  }

  /** Whatever the fragments, the masking keys, the length forms and the control frames in between are,
      and however the stream ends: the loop handles exactly the messages that come to their end, answers
      exactly the pings, in order, echoes a closing frame, and does nothing behind a frame at which it
      stops. */
  lemma ServeDelivers(fs: seq<Frame>, messages: seq<Fragments>, done: nat, e: Ending, n: nat)
    requires Converses(fs, messages, done, e)
    ensures var read, whole := ReaderOf(Stream(fs, e)), Expected(fs, 0, messages, 0) + EndEvents(e);
            && Turns(read, n).events <= whole
            && (Halted(read, Turns(read, n)) ==> Turns(read, n).events == whole)
  {
    var d, end := Stream(fs, e), |Flat(Encodings(fs))|;
    ServesConversation(fs, 0, messages, 0, 0, done);
    FlatInFront(Encodings(fs), EndBytes(e));
    if e.Stopping? {
      StoppingEnds(d, end, e.last, e.tail);
      StopsIff(e.last, At(messages, done), Unfinished(fs, 0, 0));
    }
    EncodingsAreFound(d, fs);
    FindsChained(d, ReaderOf(d), 0, Encodings(fs), fs, 0, end);
    PartThenWhole(ReaderOf(d), fs, end, e, n);
  }

  // ---- the two projections ---------------------------------------------------

  /** The messages among the first `n` events, and the payloads of the pongs among the first `n` frames. */
  function TextsIn(events: seq<Event>, n: nat): seq<seq<byte>>
    requires n <= |events|
  {
    if n == 0 then []
    else TextsIn(events, n - 1) + if events[n - 1].Text? then [events[n - 1].message] else []
  }

  function PongsIn(frames: seq<Outgoing>, n: nat): seq<seq<byte>>
    requires n <= |frames|
  {
    if n == 0 then []
    else PongsIn(frames, n - 1) + if frames[n - 1].opcode == OP_PONG then [frames[n - 1].payload] else []
  }

  function Texts(events: seq<Event>): seq<seq<byte>> {
    TextsIn(events, |events|)
  }

  function Pongs(frames: seq<Outgoing>): seq<seq<byte>> {
    PongsIn(frames, |frames|)
  }

  /** The messages from the `m`-th on that come to their end, and the payloads of the pings among `fs[k..]`. */
  function Originals(messages: seq<Fragments>, m: nat, done: nat): seq<seq<byte>>
    requires m <= done <= |messages|
    decreases done - m
  {
    if m == done then [] else [Joined(messages[m], |messages[m]|)] + Originals(messages, m + 1, done)
  }

  function Pings(fs: seq<Frame>, k: nat): seq<seq<byte>>
    requires k <= |fs|
    decreases |fs| - k
  {
    if k == |fs| then []
    else if fs[k].opcode == OP_PING then [fs[k].payload] + Pings(fs, k + 1)
    else Pings(fs, k + 1)
  }

  lemma {:induction false} TextsPrefix(events: seq<Event>, more: seq<Event>, n: nat)
    requires n <= |events|
    ensures TextsIn(events + more, n) == TextsIn(events, n)
    decreases n
  {
    if n > 0 {
      TextsPrefix(events, more, n - 1);
    }
  }

  lemma {:induction false} PongsPrefix(frames: seq<Outgoing>, more: seq<Outgoing>, n: nat)
    requires n <= |frames|
    ensures PongsIn(frames + more, n) == PongsIn(frames, n)
    decreases n
  {
    if n > 0 {
      PongsPrefix(frames, more, n - 1);
    }
  }

  lemma TextsGrow(events: seq<Event>, e: Event)
    ensures Texts(events + [e]) == Texts(events) + if e.Text? then [e.message] else []
  {
    TextsPrefix(events, [e], |events|);
  }

  lemma PongsGrow(frames: seq<Outgoing>, f: Outgoing)
    ensures Pongs(frames + [f]) == Pongs(frames) + if f.opcode == OP_PONG then [f.payload] else []
  {
    PongsPrefix(frames, [f], |frames|);
  }

  /** The last element of `b`, in front of the rest of it and of `a`. */
  lemma Snoc<T>(a: seq<T>, b: seq<T>) returns (front: seq<T>, last: T)
    requires b != []
    ensures b == front + [last] && a + b == a + front + [last] && |front| < |b|
  {
    front, last := b[..|b| - 1], b[|b| - 1];
  }

  lemma {:induction false} TextsAppend(a: seq<Event>, b: seq<Event>)
    ensures Texts(a + b) == Texts(a) + Texts(b)
    decreases |b|
  {
    if b == [] {
      assert a + b == a;
    } else {
      var front, e := Snoc(a, b);
      TextsAppend(a, front);
      TextsGrow(a + front, e);
      TextsGrow(front, e);
    }
  }

  lemma {:induction false} SendsAppend(a: seq<Event>, b: seq<Event>)
    ensures AllSends(a + b) == AllSends(a) + AllSends(b)
    decreases |b|
  {
    if b == [] {
      assert a + b == a;
    } else {
      var front, e := Snoc(a, b);
      SendsAppend(a, front);
      SendsGrow(a + front, e);
      SendsGrow(front, e);
    }
  }

  lemma {:induction false} PongsAppend(a: seq<Outgoing>, b: seq<Outgoing>)
    ensures Pongs(a + b) == Pongs(a) + Pongs(b)
    decreases |b|
  {
    if b == [] {
      assert a + b == a;
    } else {
      var front, f := Snoc(a, b);
      PongsAppend(a, front);
      PongsGrow(a + front, f);
      PongsGrow(front, f);
    }
  }

  lemma {:induction false} PongsAreAnswers(frames: seq<Outgoing>, n: nat)
    requires n <= |frames|
    ensures Pongs(Answers(frames, n)) == PongsIn(frames, n)
    decreases n
  {
    if n > 0 {
      PongsAreAnswers(frames, n - 1);
      PongsGrow(Answers(frames, n - 1), frames[n - 1]);
      assert Answers(frames, n - 1) + [] == Answers(frames, n - 1);
    }
  }

  lemma SinglePong(e: Event)
    ensures Pongs(AllSends([e])) == if e.Sent? && e.opcode == OP_PONG then [e.payload] else []
  {
    assert [] + [e] == [e];
    SendsGrow([], e);
    if e.Sent? {
      var f := Outgoing(e.opcode, e.payload);
      assert [] + [f] == [f];
      PongsGrow([], f);
    }
  }

  lemma OneEvent(e: Event, es: seq<Event>)
    ensures Texts([e] + es) == (if e.Text? then [e.message] else []) + Texts(es)
    ensures Pongs(AllSends([e] + es)) ==
            (if e.Sent? && e.opcode == OP_PONG then [e.payload] else []) + Pongs(AllSends(es))
  {
    TextsAppend([e], es);
    SendsAppend([e], es);
    PongsAppend(AllSends([e]), AllSends(es));
    assert [] + [e] == [e];
    SendsGrow([], e);
    TextsGrow([], e);
    SinglePong(e);
  }

  lemma {:induction false} ExpectedTexts(fs: seq<Frame>, k: nat, messages: seq<Fragments>, m: nat, j: nat, done: nat)
    requires k <= |fs| && m <= done <= |messages| && Carries(fs, k, messages, m, j, done)
    ensures Texts(Expected(fs, k, messages, m)) == Originals(messages, m, done)
    decreases |fs| - k
  {
    if k < |fs| {
      if fs[k].opcode == OP_PING {
        ExpectedTexts(fs, k + 1, messages, m, j, done);
        OneEvent(Sent(OP_PONG, fs[k].payload), Expected(fs, k + 1, messages, m));
      } else if Interleaves(fs[k]) {
        ExpectedTexts(fs, k + 1, messages, m, j, done);
      } else if !fs[k].fin {
        ExpectedTexts(fs, k + 1, messages, m, j + 1, done);
      } else {
        DoneIsAhead(fs, k + 1, messages, m + 1, 0, done);
        ExpectedTexts(fs, k + 1, messages, m + 1, 0, done);
        OneEvent(Text(Joined(messages[m], |messages[m]|)), Expected(fs, k + 1, messages, m + 1));
      }
    }
  }

  /** Pings are answered whatever the other frames carry. */
  lemma {:induction false} ExpectedPongs(fs: seq<Frame>, k: nat, messages: seq<Fragments>, m: nat)
    requires k <= |fs|
    ensures Pongs(AllSends(Expected(fs, k, messages, m))) == Pings(fs, k)
    decreases |fs| - k
  {
    if k < |fs| {
      if fs[k].opcode == OP_PING {
        ExpectedPongs(fs, k + 1, messages, m);
        OneEvent(Sent(OP_PONG, fs[k].payload), Expected(fs, k + 1, messages, m));
      } else if Interleaves(fs[k]) || !fs[k].fin || m >= |messages| {
        ExpectedPongs(fs, k + 1, messages, m);
      } else {
        ExpectedPongs(fs, k + 1, messages, m + 1);
        OneEvent(Text(Joined(messages[m], |messages[m]|)), Expected(fs, k + 1, messages, m + 1));
      }
    }
  }

  lemma {:induction false} DoneIsAhead(fs: seq<Frame>, k: nat, messages: seq<Fragments>, m: nat, j: nat, done: nat)
    requires k <= |fs| && Carries(fs, k, messages, m, j, done)
    ensures m <= done <= |messages|
    decreases |fs| - k
  {
    if k < |fs| {
      if Interleaves(fs[k]) {
        DoneIsAhead(fs, k + 1, messages, m, j, done);
      } else if fs[k].fin {
        DoneIsAhead(fs, k + 1, messages, m + 1, 0, done);
      } else {
        DoneIsAhead(fs, k + 1, messages, m, j + 1, done);
      }
    }
  }

  lemma ProjectionsAtTheEnd(events: seq<Event>, e: Ending)
    ensures Texts(events + EndEvents(e)) == Texts(events)
    ensures Pongs(AllSends(events + EndEvents(e))) == Pongs(AllSends(events))
  {
    TextsAppend(events, EndEvents(e));
    SendsAppend(events, EndEvents(e));
    PongsAppend(AllSends(events), AllSends(EndEvents(e)));
    if EndEvents(e) != [] {
      OneEvent(EndEvents(e)[0], []);
      assert EndEvents(e) == [EndEvents(e)[0]] + [];
    }
  }

  // ---- serving a client ------------------------------------------------------

  /** An initial part of the events has an initial part of the messages and of the pongs. */
  lemma PartOfProjections(part: seq<Event>, whole: seq<Event>)
    requires part <= whole
    ensures Texts(part) <= Texts(whole) && Pongs(AllSends(part)) <= Pongs(AllSends(whole))
  {
    var rest := whole[|part|..];
    assert whole == part + rest;
    TextsAppend(part, rest);
    SendsAppend(part, rest);
    PongsAppend(AllSends(part), AllSends(rest));
  }

  lemma PongsOnWire(frames: seq<Outgoing>, events: seq<Event>, lost: bool, whole: seq<Event>)
    requires OnWire(frames, events, lost) && events <= whole
    ensures Pongs(frames) <= Pongs(AllSends(whole))
    ensures !lost && events == whole ==> Pongs(frames) == Pongs(AllSends(whole))
  {
    var part := AnsweredPart(frames, events, lost);
    PongsAreAnswers(frames, |frames|);
    PartOfProjections(part, whole);
  }

  /** The events up to the last answer that was not lost. */
  lemma AnsweredPart(frames: seq<Outgoing>, events: seq<Event>, lost: bool) returns (part: seq<Event>)
    requires OnWire(frames, events, lost)
    ensures part <= events && AllAnswers(frames) == AllSends(part) && (!lost ==> part == events)
  {
    part := events;
    if lost {
      part := events[..|events| - 1];
      assert events == part + [events[|events| - 1]];
      SendsGrow(part, events[|events| - 1]);
    }
  }

  lemma WholeProjections(fs: seq<Frame>, messages: seq<Fragments>, done: nat, e: Ending)
    requires Converses(fs, messages, done, e)
    ensures done <= |messages|
    ensures var whole := Expected(fs, 0, messages, 0) + EndEvents(e);
            Texts(whole) == Originals(messages, 0, done) && Pongs(AllSends(whole)) == Pings(fs, 0)
  {
    DoneIsAhead(fs, 0, messages, 0, 0, done);
    ExpectedTexts(fs, 0, messages, 0, 0, done);
    ExpectedPongs(fs, 0, messages, 0);
    ProjectionsAtTheEnd(Expected(fs, 0, messages, 0), e);
  }

  /** One client served to the end, with other threads at work on its connection. Whatever fails: messages
      are handled once, in order and unchanged, pings are answered with their own payload and in order,
      up to some point, and the client reads from the bytes it gets exactly the frames that were sent
      whole. If the socket takes all that is written and `shutdown_all` is not called, every finished
      message is handled, every ping is answered and a closing frame is echoed. */
  method ServeClient(c: Connection, ghost fs: seq<Frame>, ghost messages: seq<Fragments>, ghost done: nat,
                     ghost e: Ending)
    requires c.sock.Valid() && c.sock.pos == 0 && c.Valid() && c.course == BEGINNING
    requires Converses(fs, messages, done, e) && c.sock.stream == Stream(fs, e)
    modifies c, c.sock
    ensures done <= |messages|
    ensures Texts(c.events) <= Originals(messages, 0, done) && Pongs(c.course.conn.frames) <= Pings(fs, 0)
    ensures !c.sock.failed && !c.shutdown ==>
              && Texts(c.events) == Originals(messages, 0, done) && Pongs(c.course.conn.frames) == Pings(fs, 0)
              && AllAnswers(c.course.conn.frames) == AllSends(Expected(fs, 0, messages, 0) + EndEvents(e))
              && c.closes == 1
    ensures AllReadable(c.course.conn.begun) ==> Reads(ReaderOf(c.sock.written), 0, c.course.conn.frames, 0)
  {
    ghost var n := c.Serve();
    ghost var whole := Expected(fs, 0, messages, 0) + EndEvents(e);
    ServeDelivers(fs, messages, done, e, n);
    WholeProjections(fs, messages, done, e);
    PartOfProjections(c.events, whole);
    PongsOnWire(c.course.conn.frames, c.events, c.course.lost, whole);
    WireReads(c.course);
  }

  lemma WireReads(h: Course)
    ensures AllReadable(h.conn.begun) ==> Reads(ReaderOf(h.conn.written), 0, h.conn.frames, 0)
  {
    LookAt(h);
    if AllReadable(h.conn.begun) {
      BegunReadable(h.conn);
      WrittenReads(h.conn);
    }
  }
}
