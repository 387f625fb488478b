/** The subscription and LISTEN registries of src/osc-subscribe.cpp, the fan-out over them, and the gate
    in front of it in src/osc-feedback.cpp. */
module Subscriptions {
  import opened Bytes
  import opened Net
  import Glob

  const MAX_SUBSCRIBERS: nat := 32
  const MAX_PATTERNS: nat := 64
  const MAX_LISTENERS: nat := 256
  const MAX_PATTERN_LEN: nat := 256

  datatype Subscriber = Subscriber(endpoint: SockAddr, patterns: seq<string>)
  datatype Listener = Listener(peer: nat, path: string)

  // ---- endpoints -------------------------------------------------------------

  predicate EndpointEqual(a: SockAddr, b: SockAddr) {
    if a.len == 0 || b.len == 0 then false
    else if a.family != b.family then false
    else if a.family == V4 then a.port == b.port && a.addr == b.addr
    else if a.family == V6 then a.port == b.port && a.scope == b.scope && a.addr == b.addr
    else false
  }

  /** The port is cast to 16 bits; other families keep theirs. */
  function SetPort(a: SockAddr, port: int): SockAddr
    requires port > 0
  {
    if a.family == OtherFamily then a else a.(port := port % 0x1_0000)
  }

  function Redirected(a: SockAddr, port: int): SockAddr {
    if port > 0 then SetPort(a, port) else a
  }

  /** A redirect changes the port and nothing else, and without a positive port it changes nothing. */
  lemma RedirectChangesPort(a: SockAddr, port: int)
    ensures var r := Redirected(a, port);
            && r.family == a.family && r.addr == a.addr && r.scope == a.scope && r.rest == a.rest && r.len == a.len
            && (port <= 0 || a.family == OtherFamily ==> r.port == a.port)
            && (0 < port < 0x1_0000 && a.family != OtherFamily ==> r.port == port)
            && (port > 0 && a.family != OtherFamily ==> r.port < 0x1_0000 && (port - r.port) % 0x1_0000 == 0)
  {
  }

  /** What identifies an endpoint, for those that equal themselves. */
  datatype Identity = Identity4(port: nat, addr: nat) | Identity6(port: nat, addr: nat, scope: nat)

  predicate Identifiable(a: SockAddr) {
    a.len != 0 && a.family != OtherFamily
  }

  function IdentityOf(a: SockAddr): Identity
    requires Identifiable(a)
  {
    if a.family == V4 then Identity4(a.port, a.addr) else Identity6(a.port, a.addr, a.scope)
  }

  lemma EndpointEqualIsIdentity(a: SockAddr, b: SockAddr)
    ensures EndpointEqual(a, b) <==> Identifiable(a) && Identifiable(b) && IdentityOf(a) == IdentityOf(b)
  {
  }

  // ---- the operations on values ----------------------------------------------

  predicate ValidPattern(pattern: string) {
    1 <= |pattern| <= MAX_PATTERN_LEN
  }

  /** The first subscriber with this endpoint, or the length. */
  function Find(subs: seq<Subscriber>, who: SockAddr, k: nat := 0): (i: nat)
    requires k <= |subs|
    ensures k <= i <= |subs| && (i < |subs| ==> EndpointEqual(subs[i].endpoint, who))
    ensures forall j :: k <= j < i ==> !EndpointEqual(subs[j].endpoint, who)
    decreases |subs| - k
  {
    if k == |subs| || EndpointEqual(subs[k].endpoint, who) then k else Find(subs, who, k + 1)
  }

  function WithPattern(patterns: seq<string>, pattern: string): seq<string> {
    if pattern in patterns || |patterns| >= MAX_PATTERNS then patterns else patterns + [pattern]
  }

  function Added(subs: seq<Subscriber>, who: SockAddr, pattern: string, port: int): seq<Subscriber> {
    var i := Find(subs, who);
    if !ValidPattern(pattern) then subs
    else if i < |subs| then
      subs[i := Subscriber(Redirected(subs[i].endpoint, port), WithPattern(subs[i].patterns, pattern))]
    else if |subs| >= MAX_SUBSCRIBERS then subs
    else subs + [Subscriber(Redirected(who, port), [pattern])]
  }

  /** The position of the first occurrence, or the length. */
  function IndexOf(patterns: seq<string>, pattern: string, k: nat := 0): (i: nat)
    requires k <= |patterns|
    ensures k <= i <= |patterns| && (i < |patterns| ==> patterns[i] == pattern)
    ensures forall j :: k <= j < i ==> patterns[j] != pattern
    decreases |patterns| - k
  {
    if k == |patterns| || patterns[k] == pattern then k else IndexOf(patterns, pattern, k + 1)
  }

  function Without(patterns: seq<string>, pattern: string): seq<string> {
    var i := IndexOf(patterns, pattern);
    if i < |patterns| then patterns[..i] + patterns[i + 1..] else patterns
  }

  /** What an unsubscribe leaves of a subscriber's patterns; no pattern means all of them. */
  function Remaining(patterns: seq<string>, pattern: Option<string>): seq<string> {
    match pattern
    case None => []
    case Some(p) => Without(patterns, p)
  }

  function Removed(subs: seq<Subscriber>, who: SockAddr, pattern: Option<string>): seq<Subscriber> {
    var i := Find(subs, who);
    if i == |subs| then subs else Reduced(subs, i, Remaining(subs[i].patterns, pattern))
  }

  /** A subscriber without patterns is erased. */
  function Reduced(subs: seq<Subscriber>, i: nat, left: seq<string>): seq<Subscriber>
    requires i < |subs|
  {
    if left == [] then subs[..i] + subs[i + 1..] else subs[i := Subscriber(subs[i].endpoint, left)]
  }

  function ListenAdded(ls: seq<Listener>, peer: nat, path: string): seq<Listener> {
    if !ValidPattern(path) || Listener(peer, path) in ls || |ls| >= MAX_LISTENERS then ls
    else ls + [Listener(peer, path)]
  }

  /** The listeners from the `k`-th on without this peer. */
  function WithoutPeer(ls: seq<Listener>, peer: nat, k: nat := 0): (r: seq<Listener>)
    requires k <= |ls|
    ensures |r| <= |ls| - k
    decreases |ls| - k
  {
    if k == |ls| then []
    else if ls[k].peer == peer then WithoutPeer(ls, peer, k + 1)
    else [ls[k]] + WithoutPeer(ls, peer, k + 1)
  }

  function ListenRemoved(ls: seq<Listener>, peer: nat, path: string, k: nat := 0): seq<Listener>
    requires k <= |ls|
    decreases |ls| - k
  {
    if k == |ls| then ls
    else if ls[k] == Listener(peer, path) then ls[..k] + ls[k + 1..]
    else ListenRemoved(ls, peer, path, k + 1)
  }

  ghost predicate Wants(patterns: seq<string>, address: string) {
    exists k :: 0 <= k < |patterns| && Glob.Accepts(patterns[k], address)
  }

  /** Where a message goes: every subscriber from the `k`-th on that wants it, once. */
  ghost function Targets(subs: seq<Subscriber>, address: string, k: nat := 0): seq<SockAddr>
    requires k <= |subs|
    decreases |subs| - k
  {
    if k == |subs| then []
    else if Wants(subs[k].patterns, address) then [subs[k].endpoint] + Targets(subs, address, k + 1)
    else Targets(subs, address, k + 1)
  }

  function Peers(ls: seq<Listener>, address: string, k: nat := 0): seq<nat>
    requires k <= |ls|
    decreases |ls| - k
  {
    if k == |ls| then []
    else if ls[k].path == address then [ls[k].peer] + Peers(ls, address, k + 1)
    else Peers(ls, address, k + 1)
  }

  // ---- the registry ----------------------------------------------------------

  /** What one feedback event reaches. */
  datatype Deliveries = Deliveries(targets: seq<SockAddr>, peers: seq<nat>, toFixed: bool, toLast: bool)

  const NOTHING: Deliveries := Deliveries([], [], false, false)

  class Registry {
    var subscribers: seq<Subscriber>
    var subscriberCount: nat
    var listeners: seq<Listener>

    ghost predicate Valid()
      reads this
    {
      subscriberCount == |subscribers| && Bounded(subscribers) && ListenersBounded(listeners)
    }

    constructor ()
      ensures Valid() && subscribers == [] && listeners == []
    {
      subscribers, subscriberCount, listeners := [], 0, [];
    }

    method SubscribeAdd(who: SockAddr, pattern: string, port: int)
      requires Valid()
      modifies this
      ensures Valid() && subscribers == Added(old(subscribers), who, pattern, port)
      ensures listeners == old(listeners)
    {
      AddedKeepsBounds(subscribers, who, pattern, port);
      if |pattern| == 0 || |pattern| > MAX_PATTERN_LEN {
        return;
      }
      for i := 0 to |subscribers|
        invariant subscribers == old(subscribers) && subscriberCount == old(subscriberCount)
        invariant listeners == old(listeners)
        invariant Find(subscribers, who) == Find(subscribers, who, i)
      {
        var sub := subscribers[i];
        if EndpointEqual(sub.endpoint, who) {
          if port > 0 {
            sub := sub.(endpoint := SetPort(sub.endpoint, port));
          }
          if pattern !in sub.patterns && |sub.patterns| < MAX_PATTERNS {
            sub := sub.(patterns := sub.patterns + [pattern]);
          }
          subscribers := subscribers[i := sub];
          return;
        }
      }
      if |subscribers| >= MAX_SUBSCRIBERS {
        return;
      }
      subscribers := subscribers + [Subscriber(Redirected(who, port), [pattern])];
      subscriberCount := subscriberCount + 1;
    }

    method SubscribeRemove(who: SockAddr, pattern: Option<string>)
      requires Valid()
      modifies this
      ensures Valid() && subscribers == Removed(old(subscribers), who, pattern)
      ensures listeners == old(listeners)
    {
      RemovedKeepsBounds(subscribers, who, pattern);
      var i := 0;
      while i < |subscribers|
        invariant i <= |subscribers| && subscribers == old(subscribers) && subscriberCount == old(subscriberCount)
        invariant listeners == old(listeners)
        invariant Find(subscribers, who) == Find(subscribers, who, i)
      {
        if EndpointEqual(subscribers[i].endpoint, who) {
          var left := Remaining(subscribers[i].patterns, pattern);
          if left == [] {
            subscribers := subscribers[..i] + subscribers[i + 1..];
            subscriberCount := subscriberCount - 1;
          } else {
            subscribers := subscribers[i := subscribers[i].(patterns := left)];
          }
          return;
        }
        i := i + 1;
      }
    }

    method ListenAdd(peer: nat, path: string)
      requires Valid()
      modifies this`listeners
      ensures Valid() && listeners == ListenAdded(old(listeners), peer, path)
    {
      if |path| == 0 || |path| > MAX_PATTERN_LEN {
        return;
      }
      for i := 0 to |listeners|
        invariant listeners == old(listeners) && Listener(peer, path) !in listeners[..i]
      {
        if listeners[i] == Listener(peer, path) {
          return;
        }
      }
      assert listeners[..|listeners|] == listeners;
      if |listeners| >= MAX_LISTENERS {
        return;
      }
      listeners := listeners + [Listener(peer, path)];
    }

    method ListenRemove(peer: nat, path: string)
      requires Valid()
      modifies this`listeners
      ensures Valid() && listeners == ListenRemoved(old(listeners), peer, path)
    {
      for i := 0 to |listeners|
        invariant listeners == old(listeners)
        invariant ListenRemoved(listeners, peer, path) == ListenRemoved(listeners, peer, path, i)
      {
        if listeners[i] == Listener(peer, path) {
          listeners := listeners[..i] + listeners[i + 1..];
          return;
        }
      }
    }

    method ListenRemovePeer(peer: nat)
      requires Valid()
      modifies this`listeners
      ensures Valid() && listeners == WithoutPeer(old(listeners), peer)
    {
      ghost var was := listeners;
      var kept: seq<Listener> := [];
      for i := 0 to |listeners|
        invariant listeners == was && kept + WithoutPeer(was, peer, i) == WithoutPeer(was, peer)
      {
        if listeners[i].peer != peer {
          Associative(kept, [was[i]], WithoutPeer(was, peer, i + 1));
          kept := kept + [listeners[i]];
        }
      }
      assert kept + [] == kept;
      WithoutPeerKeepsBounds(was, peer, 0);
      listeners := kept;
    }

    /** `osc_publish`: the snapshot it takes under the lock, and the number it returns. */
    method Publish(address: string) returns (targets: seq<SockAddr>, peers: seq<nat>, count: nat)
      ensures targets == Targets(subscribers, address) && peers == Peers(listeners, address)
      ensures count == |targets|
    {
      targets, peers := [], [];
      for i := 0 to |subscribers|
        invariant targets + Targets(subscribers, address, i) == Targets(subscribers, address)
      {
        var wanted := AnyMatch(subscribers[i].patterns, address);
        if wanted {
          Associative(targets, [subscribers[i].endpoint], Targets(subscribers, address, i + 1));
          targets := targets + [subscribers[i].endpoint];
        }
      }
      for i := 0 to |listeners|
        invariant peers + Peers(listeners, address, i) == Peers(listeners, address)
      {
        if listeners[i].path == address {
          Associative(peers, [listeners[i].peer], Peers(listeners, address, i + 1));
          peers := peers + [listeners[i].peer];
        }
      }
      assert targets + [] == targets && peers + [] == peers;
      count := |targets|;
    }

    /** `osc_feedback_send`, with the settings and the state of the server as it finds them. */
    method FeedbackSend(enabled: bool, hasFixed: bool, hasLast: bool, address: string) returns (d: Deliveries)
      requires Valid()
      ensures d == Feedback(enabled, hasFixed, hasLast, subscribers, listeners, address)
    {
      if !enabled {
        return NOTHING;
      }
      var haveSubscribers := subscriberCount != 0;
      if !haveSubscribers && !hasFixed && !hasLast {
        return NOTHING;
      }
      var targets, peers, _ := Publish(address);
      return Deliveries(targets, peers, hasFixed, !haveSubscribers && hasLast);
    }
  }

  /** The inner loop of `osc_publish` over one subscriber's patterns. */
  method AnyMatch(patterns: seq<string>, address: string) returns (wanted: bool)
    ensures wanted == Wants(patterns, address)
  {
    for k := 0 to |patterns|
      invariant forall j :: 0 <= j < k ==> !Glob.Accepts(patterns[j], address)
    {
      var matched, _ := Glob.GlobMatch(patterns[k], address);
      if matched {
        return true;
      }
    }
    return false;
  }

  // ---- bounds ----------------------------------------------------------------

  predicate Distinct(patterns: seq<string>) {
    forall i, j :: 0 <= i < j < |patterns| ==> patterns[i] != patterns[j]
  }

  predicate GoodPatterns(patterns: seq<string>) {
    && 1 <= |patterns| <= MAX_PATTERNS && Distinct(patterns)
    && forall i :: 0 <= i < |patterns| ==> ValidPattern(patterns[i])
  }

  /** At most 32 subscribers with 1 to 64 distinct patterns of 1 to 256 characters each. */
  predicate Bounded(subs: seq<Subscriber>) {
    |subs| <= MAX_SUBSCRIBERS && forall i :: 0 <= i < |subs| ==> GoodPatterns(subs[i].patterns)
  }

  /** At most 256 distinct registrations with valid paths. */
  predicate ListenersBounded(ls: seq<Listener>) {
    && |ls| <= MAX_LISTENERS && (forall i :: 0 <= i < |ls| ==> ValidPattern(ls[i].path))
    && forall i, j :: 0 <= i < j < |ls| ==> ls[i] != ls[j]
  }

  /** Every subscribe keeps the bounds, redirecting or not. */
  lemma AddedKeepsBounds(subs: seq<Subscriber>, who: SockAddr, pattern: string, port: int)
    requires Bounded(subs)
    ensures Bounded(Added(subs, who, pattern, port))
  {
  }

  lemma RemovedKeepsBounds(subs: seq<Subscriber>, who: SockAddr, pattern: Option<string>)
    requires Bounded(subs)
    ensures Bounded(Removed(subs, who, pattern))
  {
    var i := Find(subs, who);
    if i < |subs| {
      RemainingGood(subs[i].patterns, pattern);
    }
  }

  lemma RemainingGood(patterns: seq<string>, pattern: Option<string>)
    requires GoodPatterns(patterns)
    ensures Remaining(patterns, pattern) == [] || GoodPatterns(Remaining(patterns, pattern))
  {
  }

  /** A LISTEN with a valid path registers, while there is room; nothing else changes. */
  lemma ListenAddedIff(ls: seq<Listener>, peer: nat, path: string)
    requires ListenersBounded(ls)
    ensures ListenersBounded(ListenAdded(ls, peer, path))
    ensures forall l :: l in ListenAdded(ls, peer, path) <==>
              l in ls || (l == Listener(peer, path) && ValidPattern(path) && |ls| < MAX_LISTENERS)
  {
  }

  /** An IGNORE takes exactly that registration out. */
  lemma {:induction false} ListenRemovedIff(ls: seq<Listener>, peer: nat, path: string, k: nat)
    requires ListenersBounded(ls) && k <= |ls| && forall i :: 0 <= i < k ==> ls[i] != Listener(peer, path)
    ensures ListenersBounded(ListenRemoved(ls, peer, path, k))
    ensures forall l :: l in ListenRemoved(ls, peer, path, k) <==> l in ls && l != Listener(peer, path)
    decreases |ls| - k
  {
    if k < |ls| {
      if ls[k] == Listener(peer, path) {
        RemovedAt(ls, k);
      } else {
        ListenRemovedIff(ls, peer, path, k + 1);
      }
    }
  }

  lemma RemovedAt(ls: seq<Listener>, k: nat)
    requires ListenersBounded(ls) && k < |ls|
    ensures var rest := ls[..k] + ls[k + 1..];
            ListenersBounded(rest) && forall l :: l in rest <==> l in ls && l != ls[k]
  {
    var rest := ls[..k] + ls[k + 1..];
    assert forall i :: 0 <= i < |rest| ==> rest[i] == ls[if i < k then i else i + 1];
    forall l | l in ls && l != ls[k] ensures l in rest {
      var i :| 0 <= i < |ls| && ls[i] == l;
      assert rest[if i < k then i else i - 1] == l;
    }
  }

  lemma {:induction false} WithoutPeerKeepsBounds(ls: seq<Listener>, peer: nat, k: nat)
    requires ListenersBounded(ls) && k <= |ls|
    ensures ListenersBounded(WithoutPeer(ls, peer, k))
    ensures forall l :: l in WithoutPeer(ls, peer, k) <==> l in ls[k..] && l.peer != peer
    decreases |ls| - k
  {
    if k < |ls| {
      WithoutPeerKeepsBounds(ls, peer, k + 1);
      assert ls[k..] == [ls[k]] + ls[k + 1..];
    }
  }

  /** What one event reaches, behind the gate. */
  ghost function Feedback(enabled: bool, hasFixed: bool, hasLast: bool, subs: seq<Subscriber>,
                          ls: seq<Listener>, address: string): Deliveries
  {
    if !enabled || (subs == [] && !hasFixed && !hasLast) then NOTHING
    else Ungated(hasFixed, hasLast, subs, ls, address)
  }

  /** What it would reach without the gate. */
  ghost function Ungated(hasFixed: bool, hasLast: bool, subs: seq<Subscriber>,
                         ls: seq<Listener>, address: string): Deliveries
  {
    Deliveries(Targets(subs, address), Peers(ls, address), hasFixed, subs == [] && hasLast)
  }

  /** Who gets an event: nobody while feedback is off or the gate is shut; otherwise each subscriber with an
      accepting pattern, each peer that listens to the address, the fixed target if there is one, and the
      last sender exactly while nobody subscribes. */
  lemma FeedbackRules(enabled: bool, hasFixed: bool, hasLast: bool, subs: seq<Subscriber>,
                      ls: seq<Listener>, address: string)
    ensures var d := Feedback(enabled, hasFixed, hasLast, subs, ls, address);
            var passes := enabled && (subs != [] || hasFixed || hasLast);
            && (d.toFixed <==> enabled && hasFixed)
            && (d.toLast <==> enabled && hasLast && subs == [])
            && (forall t :: t in d.targets <==>
                  passes && exists i, k :: 0 <= i < |subs| && 0 <= k < |subs[i].patterns|
                                           && subs[i].endpoint == t && Glob.Accepts(subs[i].patterns[k], address))
            && (forall p :: p in d.peers <==> passes && Listener(p, address) in ls)
  {
    TargetsAre(subs, address, 0);
    PeersAre(ls, address, 0);
    assert ls[0..] == ls;
  }

  lemma {:induction false} TargetsAre(subs: seq<Subscriber>, address: string, k: nat)
    requires k <= |subs|
    ensures forall t :: t in Targets(subs, address, k) <==>
              exists i, j :: k <= i < |subs| && 0 <= j < |subs[i].patterns|
                             && subs[i].endpoint == t && Glob.Accepts(subs[i].patterns[j], address)
    decreases |subs| - k
  {
    if k < |subs| {
      TargetsAre(subs, address, k + 1);
    }
  }

  lemma {:induction false} PeersAre(ls: seq<Listener>, address: string, k: nat)
    requires k <= |ls|
    ensures forall p :: p in Peers(ls, address, k) <==> Listener(p, address) in ls[k..]
    decreases |ls| - k
  {
    if k < |ls| {
      PeersAre(ls, address, k + 1);
      assert ls[k..] == [ls[k]] + ls[k + 1..];
    }
  }

  lemma {:induction false} NoPeersIff(ls: seq<Listener>, address: string, k: nat)
    requires k <= |ls|
    ensures Peers(ls, address, k) == [] <==> forall i :: k <= i < |ls| ==> ls[i].path != address
    decreases |ls| - k
  {
    if k < |ls| {
      NoPeersIff(ls, address, k + 1);
    }
  }

  /** The gate is meant to skip only events that nobody could receive. It forgets the LISTEN peers: with
      feedback enabled, it loses something exactly when there is no UDP receiver of any kind and some
      peer listens to the address. */
  lemma GateLosesIffOnlyListeners(hasFixed: bool, hasLast: bool, subs: seq<Subscriber>,
                                  ls: seq<Listener>, address: string)
    ensures Feedback(true, hasFixed, hasLast, subs, ls, address) != Ungated(hasFixed, hasLast, subs, ls, address)
            <==> subs == [] && !hasFixed && !hasLast && exists i :: 0 <= i < |ls| && ls[i].path == address
  {
    NoPeersIff(ls, address, 0);
  }
}
