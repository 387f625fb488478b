/** One feedback event from end to end: `osc_feedback_send` of src/osc-feedback.cpp builds a message, and
    `osc_publish` of src/osc-subscribe.cpp hands it to the send queue for every receiver and to
    `send_binary` for every listening peer. What then becomes of a datagram or a frame is the matter of
    the queue and of the connections. */
module FeedbackDelivery {
  import opened Bytes
  import opened Net
  import opened OscCodec
  import opened OscRoundTrip
  import opened Subscriptions
  import opened SubscriptionMap
  import opened WsFrame
  import SendQueue

  datatype PeerFrame = PeerFrame(peer: nat, frame: Outgoing)

  /** What leaves for one event. */
  datatype Leaving = Leaving(datagrams: seq<Datagram>, frames: seq<PeerFrame>)

  /** The address as the registries see it: a C string. */
  function TextOf(address: seq<byte>): string {
    var s := CString(address);
    seq(|s|, i requires 0 <= i < |s| => s[i] as char)
  }

  /** The bytes of a text, and the text of bytes, are each other's. */
  function BytesOf(text: string): seq<int> {
    seq(|text|, i requires 0 <= i < |text| => text[i] as int)
  }

  lemma TextIsTheBytes(address: seq<byte>)
    ensures BytesOf(TextOf(address)) == CString(address)
    ensures NulFree(address) ==> BytesOf(TextOf(address)) == address
  {
    CStringIsNulFree(address);
  }

  function Each(to: seq<SockAddr>, data: seq<byte>): seq<Datagram> {
    seq(|to|, i requires 0 <= i < |to| => Datagram(to[i], data))
  }

  function EachPeer(peers: seq<nat>, data: seq<byte>): seq<PeerFrame> {
    seq(|peers|, i requires 0 <= i < |peers| => PeerFrame(peers[i], Outgoing(OP_BINARY, data)))
  }

  /** The receivers that get every event: the fixed target, and the last sender while nobody subscribes. */
  function Legacy(d: Deliveries, fixed: Option<SockAddr>, last: Option<SockAddr>): seq<SockAddr> {
    (if d.toFixed && fixed.Some? then [fixed.value] else []) + (if d.toLast && last.Some? then [last.value] else [])
  }

  ghost function Leaves(enabled: bool, fixed: Option<SockAddr>, last: Option<SockAddr>, subs: seq<Subscriber>,
                      ls: seq<Listener>, m: Message): Leaving
  {
    var d := Feedback(enabled, fixed.Some?, last.Some?, subs, ls, TextOf(m.address));
    Leaving(Each(d.targets + Legacy(d, fixed, last), Encode(m)), EachPeer(d.peers, Encode(m)))
  }

  /** `osc_feedback_send`, and what `osc_publish` does with what it found. */
  method Send(r: Registry, enabled: bool, fixed: Option<SockAddr>, last: Option<SockAddr>,
              address: seq<byte>, args: seq<Argument>) returns (out: Leaving)
    requires r.Valid()
    ensures out == Leaves(enabled, fixed, last, r.subscribers, r.listeners, Message(address, args))
  {
    var d := r.FeedbackSend(enabled, fixed.Some?, last.Some?, TextOf(address));
    var data := BuildMessage([], address, args);
    assert data == Encode(Message(address, args));
    var datagrams := SendEach(d.targets, data);
    var frames := SendToPeers(d.peers, data);
    if d.toFixed && fixed.Some? {
      datagrams := datagrams + [Datagram(fixed.value, data)];
    }
    if d.toLast && last.Some? {
      datagrams := datagrams + [Datagram(last.value, data)];
    }
    return Leaving(datagrams, frames);
  }

  /** The loops at the end of `osc_publish`. */
  method SendEach(targets: seq<SockAddr>, data: seq<byte>) returns (datagrams: seq<Datagram>)
    ensures datagrams == Each(targets, data)
  {
    datagrams := [];
    for i := 0 to |targets|
      invariant datagrams == Each(targets[..i], data)
    {
      datagrams := datagrams + [Datagram(targets[i], data)];
    }
    assert targets[..|targets|] == targets;
  }

  method SendToPeers(peers: seq<nat>, data: seq<byte>) returns (frames: seq<PeerFrame>)
    ensures frames == EachPeer(peers, data)
  {
    frames := [];
    for i := 0 to |peers|
      invariant frames == EachPeer(peers[..i], data)
    {
      frames := frames + [PeerFrame(peers[i], Outgoing(OP_BINARY, data))];
    }
    assert peers[..|peers|] == peers;
  }

  // ---- who gets how many -----------------------------------------------------

  predicate GoesTo(a: SockAddr, id: Identity) {
    Identifiable(a) && IdentityOf(a) == id
  }

  /** How many datagrams go to an endpoint. */
  function CountTo(ds: seq<Datagram>, id: Identity): nat {
    if ds == [] then 0
    else CountTo(ds[..|ds| - 1], id) + if GoesTo(ds[|ds| - 1].to, id) then 1 else 0
  }

  /** How many frames go to a peer. */
  function FramesTo(fs: seq<PeerFrame>, peer: nat): nat {
    if fs == [] then 0 else (if fs[0].peer == peer then 1 else 0) + FramesTo(fs[1..], peer)
  }

  lemma {:induction false} CountAppend(a: seq<Datagram>, b: seq<Datagram>, id: Identity)
    ensures CountTo(a + b, id) == CountTo(a, id) + CountTo(b, id)
    decreases |b|
  {
    if b == [] {
      assert a + b == a;
    } else {
      assert (a + b)[..|a + b| - 1] == a + b[..|b| - 1];
      CountAppend(a, b[..|b| - 1], id);
    }
  }

  lemma {:induction false} OneEach(ts: seq<SockAddr>, data: seq<byte>, id: Identity)
    requires forall i :: 0 <= i < |ts| ==> Identifiable(ts[i])
    requires forall i, j :: 0 <= i < j < |ts| ==> IdentityOf(ts[i]) != IdentityOf(ts[j])
    ensures CountTo(Each(ts, data), id) == if Reached(ts, id) then 1 else 0
    decreases |ts|
  {
    if ts != [] {
      var front, n := ts[..|ts| - 1], |ts| - 1;
      OneEach(front, data, id);
      assert Each(ts, data)[..n] == Each(front, data);
      ReachedMore(ts, id);
    }
  }

  lemma ReachedMore(ts: seq<SockAddr>, id: Identity)
    requires ts != []
    ensures Reached(ts, id) <==> Reached(ts[..|ts| - 1], id) || GoesTo(ts[|ts| - 1], id)
  {
    var front := ts[..|ts| - 1];
    if Reached(front, id) {
      var i :| 0 <= i < |front| && Identifiable(front[i]) && IdentityOf(front[i]) == id;
      assert ts[i] == front[i];
    }
    if Reached(ts, id) && !GoesTo(ts[|ts| - 1], id) {
      var i :| 0 <= i < |ts| && Identifiable(ts[i]) && IdentityOf(ts[i]) == id;
      assert front[i] == ts[i];
    }
  }

  lemma {:induction false} OncePerPeer(ls: seq<Listener>, text: string, data: seq<byte>, peer: nat, k: nat)
    requires k <= |ls| && forall i, j :: 0 <= i < j < |ls| ==> ls[i] != ls[j]
    ensures FramesTo(EachPeer(Peers(ls, text, k), data), peer) == if Listener(peer, text) in ls[k..] then 1 else 0
    decreases |ls| - k
  {
    if k < |ls| {
      OncePerPeer(ls, text, data, peer, k + 1);
      assert ls[k..] == [ls[k]] + ls[k + 1..];
      var rest := Peers(ls, text, k + 1);
      if ls[k].path == text {
        assert EachPeer([ls[k].peer] + rest, data)[1..] == EachPeer(rest, data);
        assert ls[k] !in ls[k + 1..];
      }
    }
  }

  // ---- the whole event -------------------------------------------------------

  /** The datagrams that are due to an endpoint: one if one of its patterns accepts the address, and one
      more for each of the legacy receivers that it is. */
  ghost function Due(m: Abstract, text: string, legacy: seq<SockAddr>, id: Identity): nat {
    (if id in m && WantsAny(m[id], text) then 1 else 0) + CountTo(Each(legacy, []), id)
  }

  lemma {:induction false} DataDoesNotCount(ts: seq<SockAddr>, a: seq<byte>, b: seq<byte>, id: Identity)
    ensures CountTo(Each(ts, a), id) == CountTo(Each(ts, b), id)
    decreases |ts|
  {
    if ts != [] {
      var front, n := ts[..|ts| - 1], |ts| - 1;
      assert Each(ts, a)[..n] == Each(front, a) && Each(ts, b)[..n] == Each(front, b);
      DataDoesNotCount(front, a, b, id);
    }
  }

  lemma EveryoneIsServed(subs: seq<Subscriber>, m: Abstract, text: string, legacy: seq<SockAddr>,
                         data: seq<byte>, id: Identity)
    requires Refines(subs, m)
    ensures CountTo(Each(Targets(subs, text) + legacy, data), id) == Due(m, text, legacy, id)
  {
    var ts := Targets(subs, text);
    PublishServesTheMap(subs, m, text);
    OneEach(ts, data, id);
    assert Each(ts + legacy, data) == Each(ts, data) + Each(legacy, data);
    CountAppend(Each(ts, data), Each(legacy, data), id);
    DataDoesNotCount(legacy, data, [], id);
  }

  /** A peer reads the packet from its frame, wherever in its stream that lies. */
  lemma FrameIsRead(d: seq<byte>, pos: nat, data: seq<byte>)
    requires |data| <= MAX_MESSAGE && Holds(d, pos, Wire(Outgoing(OP_BINARY, data)))
    ensures ParseFrame(d, pos) == GotFrame(Header(OP_BINARY, true, false, |data|), data,
                                           pos + |Wire(Outgoing(OP_BINARY, data))|)
  {
    FrameReads(d, pos, ServerFrame(OP_BINARY, data));
  }

  /** One event past the gate: every endpoint of the subscription map that wants the address gets exactly
      one datagram, and nobody else any but the legacy receivers; every datagram parses to exactly the
      message; every peer that listens to the address is sent exactly one binary frame, with the same
      packet. */
  lemma EventReachesExactly(subs: seq<Subscriber>, m: Abstract, ls: seq<Listener>, fixed: Option<SockAddr>,
                            last: Option<SockAddr>, msg: Message)
    requires Refines(subs, m) && ListenersBounded(ls) && (subs != [] || fixed.Some? || last.Some?)
    requires Encodable(msg.args) && StartsWithSlash(msg.address) && |Encode(msg)| < WORD
    ensures var out, text := Leaves(true, fixed, last, subs, ls, msg), TextOf(msg.address);
            var legacy := (if fixed.Some? then [fixed.value] else [])
                          + (if last.Some? && subs == [] then [last.value] else []);
            && (forall id :: CountTo(out.datagrams, id) == Due(m, text, legacy, id))
            && (forall d :: d in out.datagrams ==> ParsePacket(d.data) == Parsed(true, [DeliveredMessage(msg)]))
            && (forall peer: nat :: FramesTo(out.frames, peer) == if Listener(peer, text) in ls then 1 else 0)
            && (forall f :: f in out.frames ==> f.frame == Outgoing(OP_BINARY, Encode(msg)))
  {
    var text, data := TextOf(msg.address), Encode(msg);
    var d := Ungated(fixed.Some?, last.Some?, subs, ls, text);
    AllAreServed(subs, m, text, Legacy(d, fixed, last), data);
    AllPeersAreServed(ls, text, data);
    BuildThenParse(msg);
  }

  /** While feedback is off, or when the gate is shut, nothing leaves. */
  lemma NothingLeaves(enabled: bool, subs: seq<Subscriber>, ls: seq<Listener>, fixed: Option<SockAddr>,
                      last: Option<SockAddr>, msg: Message)
    requires !enabled || (subs == [] && fixed.None? && last.None?)
    ensures Leaves(enabled, fixed, last, subs, ls, msg) == Leaving([], [])
  {
  }

  lemma AllAreServed(subs: seq<Subscriber>, m: Abstract, text: string, legacy: seq<SockAddr>, data: seq<byte>)
    requires Refines(subs, m)
    ensures forall id :: CountTo(Each(Targets(subs, text) + legacy, data), id) == Due(m, text, legacy, id)
    ensures forall d :: d in Each(Targets(subs, text) + legacy, data) ==> d.data == data
  {
    forall id ensures CountTo(Each(Targets(subs, text) + legacy, data), id) == Due(m, text, legacy, id) {
      EveryoneIsServed(subs, m, text, legacy, data, id);
    }
  }

  lemma AllPeersAreServed(ls: seq<Listener>, text: string, data: seq<byte>)
    requires ListenersBounded(ls)
    ensures forall peer: nat ::
              FramesTo(EachPeer(Peers(ls, text), data), peer) == if Listener(peer, text) in ls then 1 else 0
    ensures forall f :: f in EachPeer(Peers(ls, text), data) ==> f.frame == Outgoing(OP_BINARY, data)
  {
    forall peer: nat
      ensures FramesTo(EachPeer(Peers(ls, text), data), peer) == if Listener(peer, text) in ls then 1 else 0
    {
      OncePerPeer(ls, text, data, peer, 0);
      assert ls[0..] == ls;
    }
  }

  // ---- through the send queue ------------------------------------------------

  /** A datagram of an event that the queue accepts is, when `stop` has joined the sender, sent as it is,
      or it has had as many newer ones as the queue can hold; what is sent parses to exactly the message. */
  lemma EventIsSentOrStale(subs: seq<Subscriber>, m: Abstract, ls: seq<Listener>, fixed: Option<SockAddr>,
                           last: Option<SockAddr>, msg: Message, d: Datagram,
                           steps: seq<SendQueue.Step>, k: nat, n: nat)
    requires Refines(subs, m) && ListenersBounded(ls) && (subs != [] || fixed.Some? || last.Some?)
    requires Encodable(msg.args) && StartsWithSlash(msg.address) && |Encode(msg)| < WORD
    requires d in Leaves(true, fixed, last, subs, ls, msg).datagrams
    requires k < n <= |steps| && SendQueue.CanRun(steps, n)
    requires steps[k] == SendQueue.Push(d) && SendQueue.After(steps, k).sendRunning
    ensures var s, i := SendQueue.After(steps, n), |SendQueue.After(steps, k).accepted|;
            && i < |s.accepted| && s.accepted[i] == d
            && ParsePacket(s.accepted[i].data) == Parsed(true, [DeliveredMessage(msg)])
            && (s.control == SendQueue.Joined ==>
                  SendQueue.Sent(s, i) || i + SendQueue.MAX_SEND_QUEUE < |s.accepted|)
  {
    EventReachesExactly(subs, m, ls, fixed, last, msg);
    SendQueue.PushedIsSentOrStale(steps, k, n, d);
  }
}
