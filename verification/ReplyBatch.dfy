/** Poll replies of src/osc-server.cpp: between `begin_batch` and `end_batch` the replies to one endpoint
    are collected and leave as one datagram. One object stands for one thread's accumulator together
    with the calls to `enqueue` that pass its guard. */
module ReplyBatch {
  import opened Bytes
  import opened OscCodec
  import opened OscRoundTrip
  import opened OscBundles
  import opened Net

  datatype Reply = Reply(to: SockAddr, message: Message)
  datatype Batch = Batch(to: SockAddr, active: bool, messages: seq<seq<byte>>, queued: seq<Datagram>)

  const NOWHERE: SockAddr := SockAddr(OtherFamily, 0, 0, 0, [], 0)

  // ---- the steps on values ---------------------------------------------------

  /** `enqueue` ignores an empty address and an empty payload. */
  function Enqueued(queued: seq<Datagram>, to: SockAddr, data: seq<byte>): seq<Datagram> {
    if to.len == 0 || data == [] then queued else queued + [Datagram(to, data)]
  }

  function Begun(b: Batch, to: SockAddr): Batch {
    b.(to := to, active := true, messages := [])
  }

  function Replied(b: Batch, r: Reply): Batch {
    if b.active && b.to == r.to then b.(messages := b.messages + [Encode(r.message)])
    else b.(queued := Enqueued(b.queued, r.to, Encode(r.message)))
  }

  /** A lone reply goes out verbatim, several become one bundle with a zero timetag. */
  function BatchPacket(messages: seq<seq<byte>>): seq<byte> {
    if |messages| == 1 then messages[0] else BundlePacket(Zeros(8), messages)
  }

  function Ended(b: Batch): Batch {
    if b.messages == [] then b.(active := false)
    else Batch(b.to, false, [], Enqueued(b.queued, b.to, BatchPacket(b.messages)))
  }

  /** The replies from the `k`-th on. */
  function RepliedAll(b: Batch, rs: seq<Reply>, k: nat := 0): Batch
    requires k <= |rs|
    decreases |rs| - k
  {
    if k == |rs| then b else RepliedAll(Replied(b, rs[k]), rs, k + 1)
  }

  // ---- the class -------------------------------------------------------------

  class Replier {
    var to: SockAddr
    var active: bool
    var messages: seq<seq<byte>>
    var queued: seq<Datagram>

    function State(): Batch
      reads this
    {
      Batch(to, active, messages, queued)
    }

    constructor ()
      ensures State() == Batch(NOWHERE, false, [], [])
    {
      to, active, messages, queued := NOWHERE, false, [], [];
    }

    method Enqueue(target: SockAddr, data: seq<byte>)
      modifies this`queued
      ensures queued == Enqueued(old(queued), target, data)
    {
      if target.len == 0 || |data| == 0 {
        return;
      }
      queued := queued + [Datagram(target, data)];
    }

    method BeginBatch(target: SockAddr)
      modifies this
      ensures State() == Begun(old(State()), target)
    {
      to := target;
      active := true;
      messages := [];
    }

    method Answer(target: SockAddr, address: seq<byte>, args: seq<Argument>)
      modifies this
      ensures State() == Replied(old(State()), Reply(target, Message(address, args)))
    {
      var buf := BuildMessage([], address, args);
      assert buf == Encode(Message(address, args));
      if active && to == target {
        messages := messages + [buf];
        return;
      }
      Enqueue(target, buf);
    }

    method EndBatch()
      modifies this
      ensures State() == Ended(old(State()))
    {
      active := false;
      if |messages| == 0 {
        return;
      }
      if |messages| == 1 {
        Enqueue(to, messages[0]);
      } else {
        var buf := BuildBundle(messages);
        Enqueue(to, buf);
      }
      messages := [];
    }
  }

  /** The bundle printer of `end_batch`. */
  method BuildBundle(messages: seq<seq<byte>>) returns (buf: seq<byte>)
    ensures buf == BundlePacket(Zeros(8), messages)
  {
    buf := BUNDLE;
    buf := buf + [0, 0, 0, 0, 0, 0, 0, 0];
    assert buf == BUNDLE + Zeros(8);
    for k := 0 to |messages|
      invariant buf + Framed(messages, k) == BUNDLE + Zeros(8) + Framed(messages)
    {
      FramedStep(buf, messages, k);
      buf := WriteBe32(buf, Low32(|messages[k]|));
      buf := buf + messages[k];
    }
  }

  lemma FramedStep(buf: seq<byte>, messages: seq<seq<byte>>, k: nat)
    requires k < |messages|
    ensures buf + Framed(messages, k) ==
            buf + BigEndian(Low32(|messages[k]|), 4) + messages[k] + Framed(messages, k + 1)
  {
  }

  // ---- whole sessions --------------------------------------------------------

  /** The messages for one endpoint, in the order they were given. */
  function AnswersTo(rs: seq<Reply>, to: SockAddr, k: nat := 0): seq<Message>
    requires k <= |rs|
    decreases |rs| - k
  {
    if k == |rs| then []
    else if rs[k].to == to then [rs[k].message] + AnswersTo(rs, to, k + 1)
    else AnswersTo(rs, to, k + 1)
  }

  /** The reply's own datagram, unless it has no address to go to. */
  function Alone(r: Reply): seq<Datagram> {
    if r.to.len == 0 then [] else [Datagram(r.to, Encode(r.message))]
  }

  /** What leaves at once because it goes to somebody else. */
  function SentDirectly(rs: seq<Reply>, to: SockAddr, k: nat := 0): seq<Datagram>
    requires k <= |rs|
    decreases |rs| - k
  {
    if k == |rs| then []
    else if rs[k].to == to then SentDirectly(rs, to, k + 1)
    else Alone(rs[k]) + SentDirectly(rs, to, k + 1)
  }

  /** What leaves when there is no batch: every reply on its own. */
  function SentAlone(rs: seq<Reply>, k: nat := 0): seq<Datagram>
    requires k <= |rs|
    decreases |rs| - k
  {
    if k == |rs| then [] else Alone(rs[k]) + SentAlone(rs, k + 1)
  }

  lemma AloneIsEnqueued(queued: seq<Datagram>, r: Reply)
    ensures Enqueued(queued, r.to, Encode(r.message)) == queued + Alone(r)
  {
    PaddedLength(r.message.address);
  }

  /** Outside a batch every reply leaves at once, in order, and nothing is collected. */
  lemma {:induction false} WithoutBatch(b: Batch, rs: seq<Reply>, k: nat)
    requires !b.active && k <= |rs|
    ensures RepliedAll(b, rs, k) == b.(queued := b.queued + SentAlone(rs, k))
    decreases |rs| - k
  {
    if k < |rs| {
      AloneIsEnqueued(b.queued, rs[k]);
      WithoutBatch(Replied(b, rs[k]), rs, k + 1);
      Associative(b.queued, Alone(rs[k]), SentAlone(rs, k + 1));
    } else {
      assert b.queued + [] == b.queued;
    }
  }

  function EncodeEach(ms: seq<Message>): (r: seq<seq<byte>>)
    ensures |r| == |ms|
  {
    if ms == [] then [] else [Encode(ms[0])] + EncodeEach(ms[1..])
  }

  function DeliveredEach(ms: seq<Message>): seq<Message> {
    if ms == [] then [] else [DeliveredMessage(ms[0])] + DeliveredEach(ms[1..])
  }

  predicate Carried(ms: seq<Message>) {
    forall m :: m in ms ==> Encodable(m.args) && StartsWithSlash(m.address) && |Encode(m)| < WORD
  }

  lemma {:induction false} AnswersAccumulate(b: Batch, rs: seq<Reply>, k: nat)
    requires b.active && k <= |rs|
    ensures RepliedAll(b, rs, k).messages == b.messages + EncodeEach(AnswersTo(rs, b.to, k))
    ensures RepliedAll(b, rs, k).active && RepliedAll(b, rs, k).to == b.to
    decreases |rs| - k
  {
    if k < |rs| {
      AnswersAccumulate(Replied(b, rs[k]), rs, k + 1);
      if rs[k].to == b.to {
        var m, rest := rs[k].message, AnswersTo(rs, b.to, k + 1);
        EncodeInFront(b.messages, m, rest);
      }
    }
  }

  lemma {:induction false} OthersLeave(b: Batch, rs: seq<Reply>, k: nat)
    requires b.active && k <= |rs|
    ensures RepliedAll(b, rs, k).queued == b.queued + SentDirectly(rs, b.to, k)
    decreases |rs| - k
  {
    if k < |rs| {
      OthersLeave(Replied(b, rs[k]), rs, k + 1);
      if rs[k].to != b.to {
        AloneIsEnqueued(b.queued, rs[k]);
        Associative(b.queued, Alone(rs[k]), SentDirectly(rs, b.to, k + 1));
      }
    }
  }

  lemma EncodeInFront(done: seq<seq<byte>>, m: Message, ms: seq<Message>)
    ensures done + EncodeEach([m] + ms) == done + [Encode(m)] + EncodeEach(ms)
  {
    assert ([m] + ms)[1..] == ms;
  }

  /** The datagram of a batch parses to exactly the messages of the batch, in order. */
  lemma BatchPacketParses(ms: seq<Message>)
    requires ms != [] && Carried(ms)
    ensures ParsePacket(BatchPacket(EncodeEach(ms))) == Parsed(true, DeliveredEach(ms))
  {
    if |ms| == 1 {
      BuildThenParse(ms[0]);
      assert DeliveredEach(ms[1..]) == [];
    } else {
      LeavesOfMessages(ms);
      TreeParses(Bundle(Zeros(8), AsLeaves(ms)));
    }
  }

  function AsLeaves(ms: seq<Message>): seq<Packet> {
    if ms == [] then [] else [Leaf(ms[0])] + AsLeaves(ms[1..])
  }

  lemma {:induction false} LeavesOfMessages(ms: seq<Message>)
    requires Carried(ms)
    ensures EncodeAll(AsLeaves(ms)) == EncodeEach(ms)
    ensures LeavesOf(AsLeaves(ms)) == DeliveredEach(ms)
    ensures SendableAll(AsLeaves(ms))
    decreases |ms|
  {
    if ms != [] {
      LeavesOfMessages(ms[1..]);
      assert AsLeaves(ms)[1..] == AsLeaves(ms[1..]);
    }
  }

  /** A whole session, whatever the replies are and whomever they go to: replies to others leave at
      once, and the replies to the batch's endpoint leave at the end as one datagram that parses to
      them, in order: a single one as it is, several in one bundle with a zero timetag; without any,
      nothing more leaves. */
  lemma SessionDelivers(b: Batch, to: SockAddr, rs: seq<Reply>)
    requires to.len != 0 && Carried(AnswersTo(rs, to))
    ensures var answers := AnswersTo(rs, to);
            var after := Ended(RepliedAll(Begun(b, to), rs));
            var packet := BatchPacket(EncodeEach(answers));
            && !after.active && after.messages == []
            && after.queued == b.queued + SentDirectly(rs, to)
                               + (if answers == [] then [] else [Datagram(to, packet)])
            && (answers != [] ==> ParsePacket(packet) == Parsed(true, DeliveredEach(answers)))
            && (|answers| == 1 ==> packet == Encode(answers[0]))
            && (|answers| > 1 ==> packet == BUNDLE + [0, 0, 0, 0, 0, 0, 0, 0] + Framed(EncodeEach(answers)))
  {
    var answers := AnswersTo(rs, to);
    AnswersAccumulate(Begun(b, to), rs, 0);
    OthersLeave(Begun(b, to), rs, 0);
    var before := RepliedAll(Begun(b, to), rs);
    assert before.messages == EncodeEach(answers);
    if answers != [] {
      BatchPacketParses(answers);
      assert BatchPacket(EncodeEach(answers)) != [];
      assert [0, 0, 0, 0, 0, 0, 0, 0] == Zeros(8);
    } else {
      assert b.queued + SentDirectly(rs, to) + [] == b.queued + SentDirectly(rs, to);
    }
  }
}
