/** The subscriber vector as what it stands for: a map from endpoints to sets of patterns. */
module SubscriptionMap {
  import opened Bytes
  import opened Net
  import opened Subscriptions
  import Glob
  import Runs

  // ---- the abstract registry -------------------------------------------------

  type Abstract = map<Identity, set<string>>

  function Grown(patterns: set<string>, pattern: string): set<string> {
    if pattern in patterns || |patterns| >= MAX_PATTERNS then patterns else patterns + {pattern}
  }

  /** A subscribe from `who` that is to be delivered to `to`, which differs from it after a redirect: the
      entry is renamed, and from then on `to` identifies it. */
  function AbstractAdd(m: Abstract, who: Identity, pattern: string, to: Identity): Abstract {
    if !ValidPattern(pattern) then m
    else if who in m then (m - {who})[to := Grown(m[who], pattern)]
    else if |m| >= MAX_SUBSCRIBERS then m
    else m[to := {pattern}]
  }

  /** The new name is not taken by anybody else, or the subscribe changes nothing. */
  predicate Clear(m: Abstract, who: Identity, pattern: string, to: Identity) {
    ValidPattern(pattern) && (who in m || |m| < MAX_SUBSCRIBERS) ==> to == who || to !in m
  }

  /** The endpoint is subscribed with this pattern. */
  predicate Wanted(m: Abstract, id: Identity, pattern: string) {
    id in m && pattern in m[id]
  }

  /** What a subscribe changes: with a valid pattern and room for it, `to` is subscribed with it afterwards,
      besides what `who` was subscribed with; everybody else keeps exactly what they had. */
  lemma AddChanges(m: Abstract, who: Identity, pattern: string, to: Identity, id: Identity, p: string)
    requires Clear(m, who, pattern, to)
    ensures var m' := AbstractAdd(m, who, pattern, to);
            var valid := 1 <= |pattern| <= 256;
            var changes := valid && (who in m || |m| < 32);
            var room := if who in m then |m[who]| < 64 else true;
            Wanted(m', id, p) <==>
              if !changes then Wanted(m, id, p)
              else if id == to then Wanted(m, who, p) || (p == pattern && room)
              else id != who && Wanted(m, id, p)
  {
  }

  /** What an unsubscribe changes: the pattern, or all of them, and an endpoint without patterns is gone. */
  lemma RemoveChanges(m: Abstract, who: Identity, pattern: Option<string>, id: Identity, p: string)
    requires forall x :: x in m ==> m[x] != {}
    ensures var m' := AbstractRemove(m, who, pattern);
            && (Wanted(m', id, p) <==> Wanted(m, id, p) && !(id == who && (pattern == None || pattern == Some(p))))
            && (forall x :: x in m' ==> m'[x] != {})
  {
  }

  function AbstractRemove(m: Abstract, who: Identity, pattern: Option<string>): Abstract {
    if who !in m then m
    else
      var rest := match pattern case None => {} case Some(p) => m[who] - {p};
      if rest == {} then m - {who} else m[who := rest]
  }

  // ---- the refinement --------------------------------------------------------

  function SetOf(patterns: seq<string>): set<string> {
    set k | 0 <= k < |patterns| :: patterns[k]
  }

  /** Every endpoint equals itself and no two are equal. */
  predicate Unique(subs: seq<Subscriber>) {
    && (forall i :: 0 <= i < |subs| ==> Identifiable(subs[i].endpoint))
    && forall i, j :: 0 <= i < j < |subs| ==> IdentityOf(subs[i].endpoint) != IdentityOf(subs[j].endpoint)
  }

  /** Some subscriber has this endpoint. */
  predicate Has(subs: seq<Subscriber>, id: Identity)
    requires Unique(subs)
  {
    exists i :: 0 <= i < |subs| && IdentityOf(subs[i].endpoint) == id
  }

  /** The map holds what each subscriber holds. */
  predicate Represents(subs: seq<Subscriber>, m: Abstract)
    requires Unique(subs)
  {
    forall i :: 0 <= i < |subs| ==>
      IdentityOf(subs[i].endpoint) in m && m[IdentityOf(subs[i].endpoint)] == SetOf(subs[i].patterns)
  }

  /** The vector and the map say the same. */
  predicate Refines(subs: seq<Subscriber>, m: Abstract) {
    Unique(subs) && |m| == |subs| && Represents(subs, m) && forall id :: id in m ==> Has(subs, id)
  }

  lemma {:induction false} SetOfDistinct(patterns: seq<string>)
    requires Distinct(patterns)
    ensures |SetOf(patterns)| == |patterns|
    decreases |patterns|
  {
    if patterns != [] {
      var front, last := patterns[..|patterns| - 1], patterns[|patterns| - 1];
      SetOfDistinct(front);
      assert SetOf(patterns) == SetOf(front) + {last};
      assert last !in SetOf(front);
    }
  }

  lemma FindFinds(subs: seq<Subscriber>, who: SockAddr, m: Abstract)
    requires Refines(subs, m) && Identifiable(who)
    ensures Find(subs, who) < |subs| <==> IdentityOf(who) in m
    ensures Find(subs, who) < |subs| ==> IdentityOf(subs[Find(subs, who)].endpoint) == IdentityOf(who)
  {
    if IdentityOf(who) in m {
      assert Has(subs, IdentityOf(who));
    }
  }

  lemma WithPatternSet(patterns: seq<string>, pattern: string)
    requires GoodPatterns(patterns)
    ensures SetOf(WithPattern(patterns, pattern)) == Grown(SetOf(patterns), pattern)
  {
    SetOfDistinct(patterns);
    assert pattern in patterns <==> pattern in SetOf(patterns);
    if pattern !in patterns && |patterns| < MAX_PATTERNS {
      var more := patterns + [pattern];
      assert SetOf(more) == SetOf(patterns) + {pattern} by {
        assert more[|patterns|] == pattern;
        forall x | x in SetOf(patterns) ensures x in SetOf(more) {
          var k :| 0 <= k < |patterns| && patterns[k] == x;
          assert more[k] == x;
        }
      }
    }
  }

  lemma WithoutSet(patterns: seq<string>, pattern: string)
    requires Distinct(patterns)
    ensures SetOf(Without(patterns, pattern)) == SetOf(patterns) - {pattern}
  {
    var i, rest := IndexOf(patterns, pattern), Without(patterns, pattern);
    if i < |patterns| {
      forall x | x in SetOf(patterns) - {pattern} ensures x in SetOf(rest) {
        var k :| 0 <= k < |patterns| && patterns[k] == x;
        assert rest[if k < i then k else k - 1] == x;
      }
      forall x | x in SetOf(rest) ensures x in SetOf(patterns) - {pattern} {
        var k :| 0 <= k < |rest| && rest[k] == x;
        assert patterns[if k < i then k else k + 1] == x;
      }
    }
  }

  /** One entry changed in the vector, and changed or renamed in the map. */
  lemma ReplaceRefines(subs: seq<Subscriber>, m: Abstract, i: nat, e: SockAddr, patterns: seq<string>)
    requires Refines(subs, m) && i < |subs| && Identifiable(e)
    requires IdentityOf(e) == IdentityOf(subs[i].endpoint) || IdentityOf(e) !in m
    ensures Refines(subs[i := Subscriber(e, patterns)],
                    (m - {IdentityOf(subs[i].endpoint)})[IdentityOf(e) := SetOf(patterns)])
  {
    var id, to := IdentityOf(subs[i].endpoint), IdentityOf(e);
    var subs', m' := subs[i := Subscriber(e, patterns)], (m - {id})[to := SetOf(patterns)];
    ReplaceUnique(subs, i, e, patterns);
    ReplaceRepresents(subs, m, i, e, patterns);
    RenamedSize(m, id, to, SetOf(patterns));
    forall x | x in m' ensures Has(subs', x) {
      ReplaceHas(subs, m, i, e, patterns, x);
    }
  }

  lemma ReplaceUnique(subs: seq<Subscriber>, i: nat, e: SockAddr, patterns: seq<string>)
    requires Unique(subs) && i < |subs| && Identifiable(e)
    requires forall k :: 0 <= k < |subs| && k != i ==> IdentityOf(subs[k].endpoint) != IdentityOf(e)
    ensures Unique(subs[i := Subscriber(e, patterns)])
  {
  }

  lemma ReplaceRepresents(subs: seq<Subscriber>, m: Abstract, i: nat, e: SockAddr, patterns: seq<string>)
    requires Unique(subs) && Represents(subs, m) && i < |subs| && Identifiable(e)
    requires Unique(subs[i := Subscriber(e, patterns)])
    ensures Represents(subs[i := Subscriber(e, patterns)],
                       (m - {IdentityOf(subs[i].endpoint)})[IdentityOf(e) := SetOf(patterns)])
  {
    var subs' := subs[i := Subscriber(e, patterns)];
    assert forall k :: 0 <= k < |subs| && k != i ==>
        subs'[k] == subs[k] && IdentityOf(subs'[k].endpoint) != IdentityOf(subs'[i].endpoint);
  }

  lemma RenamedSize(m: Abstract, id: Identity, to: Identity, patterns: set<string>)
    requires id in m && (to == id || to !in m)
    ensures |(m - {id})[to := patterns]| == |m|
  {
    var m' := (m - {id})[to := patterns];
    assert m'.Keys == m.Keys - {id} + {to};
    assert |m'.Keys| == |m'| && |m.Keys| == |m|;
  }

  lemma ReplaceHas(subs: seq<Subscriber>, m: Abstract, i: nat, e: SockAddr, patterns: seq<string>, x: Identity)
    requires Refines(subs, m) && i < |subs| && Identifiable(e) && Unique(subs[i := Subscriber(e, patterns)])
    requires x == IdentityOf(e) || (x in m && x != IdentityOf(subs[i].endpoint))
    ensures Has(subs[i := Subscriber(e, patterns)], x)
  {
    var subs' := subs[i := Subscriber(e, patterns)];
    if x == IdentityOf(e) {
      assert IdentityOf(subs'[i].endpoint) == x;
    } else {
      assert Has(subs, x);
      var k :| 0 <= k < |subs| && IdentityOf(subs[k].endpoint) == x;
      assert subs'[k] == subs[k];
    }
  }

  /** One entry dropped from both. */
  lemma DropRefines(subs: seq<Subscriber>, m: Abstract, i: nat)
    requires Refines(subs, m) && i < |subs|
    ensures Refines(subs[..i] + subs[i + 1..], m - {IdentityOf(subs[i].endpoint)})
  {
    var id := IdentityOf(subs[i].endpoint);
    DropUnique(subs, i);
    DroppedSize(m, id);
    forall x | x in m && x != id ensures Has(subs[..i] + subs[i + 1..], x) {
      DropHas(subs, m, i, x);
    }
    DropRepresents(subs, m, i);
  }

  lemma DroppedSize(m: Abstract, id: Identity)
    requires id in m
    ensures |m - {id}| == |m| - 1
  {
    var m' := m - {id};
    assert m'.Keys == m.Keys - {id} && |m'.Keys| == |m'| && |m.Keys| == |m|;
  }

  lemma DropHas(subs: seq<Subscriber>, m: Abstract, i: nat, x: Identity)
    requires Refines(subs, m) && i < |subs| && Unique(subs[..i] + subs[i + 1..])
    requires x in m && x != IdentityOf(subs[i].endpoint)
    ensures Has(subs[..i] + subs[i + 1..], x)
  {
    assert Has(subs, x);
    var k :| 0 <= k < |subs| && IdentityOf(subs[k].endpoint) == x;
    var j := StillThere(subs, i, k);
    assert IdentityOf((subs[..i] + subs[i + 1..])[j].endpoint) == x;
  }

  lemma StillThere(subs: seq<Subscriber>, i: nat, k: nat) returns (j: nat)
    requires i < |subs| && k < |subs| && k != i
    ensures j < |subs| - 1 && (subs[..i] + subs[i + 1..])[j] == subs[k]
  {
    j := if k < i then k else k - 1;
  }

  lemma DropUnique(subs: seq<Subscriber>, i: nat)
    requires Unique(subs) && i < |subs|
    ensures Unique(subs[..i] + subs[i + 1..])
  {
    var subs' := subs[..i] + subs[i + 1..];
    assert forall k :: 0 <= k < |subs'| ==> subs'[k] == subs[if k < i then k else k + 1];
  }

  lemma DropRepresents(subs: seq<Subscriber>, m: Abstract, i: nat)
    requires Unique(subs) && Represents(subs, m) && i < |subs| && Unique(subs[..i] + subs[i + 1..])
    ensures Represents(subs[..i] + subs[i + 1..], m - {IdentityOf(subs[i].endpoint)})
  {
    var subs' := subs[..i] + subs[i + 1..];
    forall k | 0 <= k < |subs'|
      ensures var id := IdentityOf(subs'[k].endpoint);
              id in m - {IdentityOf(subs[i].endpoint)} && m[id] == SetOf(subs'[k].patterns)
    {
      assert subs'[k] == subs[if k < i then k else k + 1];
    }
  }

  /** One entry appended to both. */
  lemma AppendRefines(subs: seq<Subscriber>, m: Abstract, who: SockAddr, patterns: seq<string>)
    requires Refines(subs, m) && Identifiable(who) && IdentityOf(who) !in m
    ensures Refines(subs + [Subscriber(who, patterns)], m[IdentityOf(who) := SetOf(patterns)])
  {
    AppendRepresents(subs, m, who, patterns);
    forall x | x in m || x == IdentityOf(who) ensures Has(subs + [Subscriber(who, patterns)], x) {
      AppendHas(subs, m, who, patterns, x);
    }
  }

  lemma AppendRepresents(subs: seq<Subscriber>, m: Abstract, who: SockAddr, patterns: seq<string>)
    requires Unique(subs) && Represents(subs, m) && Identifiable(who) && IdentityOf(who) !in m
    ensures Unique(subs + [Subscriber(who, patterns)])
    ensures Represents(subs + [Subscriber(who, patterns)], m[IdentityOf(who) := SetOf(patterns)])
  {
    var subs' := subs + [Subscriber(who, patterns)];
    assert forall k :: 0 <= k < |subs| ==> subs'[k] == subs[k];
  }

  lemma AppendHas(subs: seq<Subscriber>, m: Abstract, who: SockAddr, patterns: seq<string>, x: Identity)
    requires Refines(subs, m) && Identifiable(who) && Unique(subs + [Subscriber(who, patterns)])
    requires x in m || x == IdentityOf(who)
    ensures Has(subs + [Subscriber(who, patterns)], x)
  {
    var subs' := subs + [Subscriber(who, patterns)];
    if x == IdentityOf(who) {
      assert subs'[|subs|].endpoint == who;
    } else {
      assert Has(subs, x);
      var k :| 0 <= k < |subs| && IdentityOf(subs[k].endpoint) == x;
      assert subs'[k] == subs[k];
    }
  }

  /** Where a subscriber's messages are to go, and what identifies it from then on. */
  function DeliveryOf(who: SockAddr, port: int): Identity
    requires Identifiable(who)
  {
    IdentityOf(Redirected(who, port))
  }

  lemma RedirectedIdentity(a: SockAddr, who: SockAddr, port: int)
    requires Identifiable(a) && Identifiable(who) && IdentityOf(a) == IdentityOf(who)
    ensures Identifiable(Redirected(a, port)) && IdentityOf(Redirected(a, port)) == DeliveryOf(who, port)
  {
  }

  /** A subscribe, redirecting or not, does to the map what it should unless the name is taken. */
  lemma AddRefines(subs: seq<Subscriber>, m: Abstract, who: SockAddr, pattern: string, port: int)
    requires Refines(subs, m) && Bounded(subs) && Identifiable(who)
    requires Clear(m, IdentityOf(who), pattern, DeliveryOf(who, port))
    ensures Refines(Added(subs, who, pattern, port), AbstractAdd(m, IdentityOf(who), pattern, DeliveryOf(who, port)))
  {
    FindFinds(subs, who, m);
    RedirectedIdentity(who, who, port);
    var i := Find(subs, who);
    if ValidPattern(pattern) && i < |subs| {
      AddToKnown(subs, m, i, who, pattern, port);
    } else if ValidPattern(pattern) && |subs| < MAX_SUBSCRIBERS {
      AppendRefines(subs, m, Redirected(who, port), [pattern]);
      assert SetOf([pattern]) == {pattern} by {
        assert [pattern][0] == pattern;
      }
    }
  }

  lemma AddToKnown(subs: seq<Subscriber>, m: Abstract, i: nat, who: SockAddr, pattern: string, port: int)
    requires Refines(subs, m) && Bounded(subs) && i < |subs| && ValidPattern(pattern)
    requires Identifiable(who) && IdentityOf(subs[i].endpoint) == IdentityOf(who)
    requires DeliveryOf(who, port) == IdentityOf(who) || DeliveryOf(who, port) !in m
    ensures Refines(subs[i := Subscriber(Redirected(subs[i].endpoint, port), WithPattern(subs[i].patterns, pattern))],
                    AbstractAdd(m, IdentityOf(who), pattern, DeliveryOf(who, port)))
  {
    assert m[IdentityOf(who)] == SetOf(subs[i].patterns);
    WithPatternSet(subs[i].patterns, pattern);
    RedirectedIdentity(subs[i].endpoint, who, port);
    ReplaceRefines(subs, m, i, Redirected(subs[i].endpoint, port), WithPattern(subs[i].patterns, pattern));
  }

  /** When the name is taken, two subscribers have one endpoint afterwards. */
  lemma TakenNameDuplicates(subs: seq<Subscriber>, m: Abstract, who: SockAddr, pattern: string, port: int)
    requires Refines(subs, m) && Identifiable(who) && !Clear(m, IdentityOf(who), pattern, DeliveryOf(who, port))
    ensures !Unique(Added(subs, who, pattern, port))
  {
    var i, to := Find(subs, who), DeliveryOf(who, port);
    FindFinds(subs, who, m);
    RedirectedIdentity(if i < |subs| then subs[i].endpoint else who, who, port);
    assert Has(subs, to);
    var k :| 0 <= k < |subs| && IdentityOf(subs[k].endpoint) == to;
    var subs' := Added(subs, who, pattern, port);
    assert k != i && subs'[k] == subs[k] && IdentityOf(subs'[i].endpoint) == to;
  }

  lemma EmptySet(patterns: seq<string>)
    ensures SetOf(patterns) == {} <==> patterns == []
  {
    if patterns != [] {
      assert patterns[0] in SetOf(patterns);
    }
  }

  lemma RemoveRefines(subs: seq<Subscriber>, m: Abstract, who: SockAddr, pattern: Option<string>)
    requires Refines(subs, m) && Bounded(subs) && Identifiable(who)
    ensures Refines(Removed(subs, who, pattern), AbstractRemove(m, IdentityOf(who), pattern))
  {
    FindFinds(subs, who, m);
    var i := Find(subs, who);
    if i < |subs| {
      RemoveFromKnown(subs, m, i, pattern);
    }
  }

  lemma RemainingSet(patterns: seq<string>, pattern: Option<string>)
    requires Distinct(patterns)
    ensures SetOf(Remaining(patterns, pattern)) == (match pattern case None => {} case Some(p) => SetOf(patterns) - {p})
    ensures SetOf(Remaining(patterns, pattern)) == {} <==> Remaining(patterns, pattern) == []
  {
    if pattern.Some? {
      WithoutSet(patterns, pattern.value);
    }
    EmptySet(Remaining(patterns, pattern));
  }

  lemma RemoveFromKnown(subs: seq<Subscriber>, m: Abstract, i: nat, pattern: Option<string>)
    requires Refines(subs, m) && Bounded(subs) && i < |subs|
    ensures Refines(Reduced(subs, i, Remaining(subs[i].patterns, pattern)),
                    AbstractRemove(m, IdentityOf(subs[i].endpoint), pattern))
  {
    var id, left := IdentityOf(subs[i].endpoint), Remaining(subs[i].patterns, pattern);
    RemainingSet(subs[i].patterns, pattern);
    assert AbstractRemove(m, id, pattern) == if left == [] then m - {id} else m[id := SetOf(left)];
    ReduceRefines(subs, m, i, left);
  }

  lemma ReduceRefines(subs: seq<Subscriber>, m: Abstract, i: nat, left: seq<string>)
    requires Refines(subs, m) && i < |subs|
    ensures var id := IdentityOf(subs[i].endpoint);
            Refines(Reduced(subs, i, left), if left == [] then m - {id} else m[id := SetOf(left)])
  {
    if left == [] {
      DropRefines(subs, m, i);
    } else {
      var id := IdentityOf(subs[i].endpoint);
      ReplaceRefines(subs, m, i, subs[i].endpoint, left);
      assert (m - {id})[id := SetOf(left)] == m[id := SetOf(left)];
    }
  }

  // ---- runs ------------------------------------------------------------------

  datatype Op = Add(who: SockAddr, pattern: string, port: int) | Remove(who: SockAddr, which: Option<string>)

  function Applied(subs: seq<Subscriber>, op: Op): seq<Subscriber> {
    match op
    case Add(who, pattern, port) => Added(subs, who, pattern, port)
    case Remove(who, which) => Removed(subs, who, which)
  }

  function AbstractApplied(m: Abstract, op: Op): Abstract
    requires Identifiable(op.who)
  {
    match op
    case Add(who, pattern, port) => AbstractAdd(m, IdentityOf(who), pattern, DeliveryOf(who, port))
    case Remove(who, which) => AbstractRemove(m, IdentityOf(who), which)
  }

  /** The vector and the map, side by side. */
  datatype Both = Both(subs: seq<Subscriber>, m: Abstract)

  const NOBODY: Both := Both([], map[])

  function BothApplied(b: Both, op: Op): Both {
    Both(Applied(b.subs, op), if Identifiable(op.who) then AbstractApplied(b.m, op) else b.m)
  }

  /** What the first `n` operations make of an empty registry. */
  function After(ops: seq<Op>, n: nat): Both
    requires n <= |ops|
  {
    Runs.After(NOBODY, BothApplied, ops, n)
  }

  predicate BoundedVector(b: Both) {
    Bounded(b.subs)
  }

  predicate AnyOp(b: Both, op: Op) {
    true
  }

  /** The bounds hold on every run, with any endpoints and any redirects. */
  lemma EveryRunIsBounded(ops: seq<Op>, n: nat)
    requires n <= |ops|
    ensures var subs := After(ops, n).subs;
            && Bounded(subs) && |subs| <= 32
            && (forall i :: 0 <= i < |subs| ==> 1 <= |subs[i].patterns| <= 64)
            && (forall i, k :: 0 <= i < |subs| && 0 <= k < |subs[i].patterns| ==> 1 <= |subs[i].patterns[k]| <= 256)
  {
    forall b: Both, op | BoundedVector(b) ensures BoundedVector(BothApplied(b, op)) {
      OperationKeepsBounds(b.subs, op);
    }
    Runs.EveryRunKeeps(NOBODY, BothApplied, ops, n, BoundedVector, AnyOp);
  }

  lemma OperationKeepsBounds(subs: seq<Subscriber>, op: Op)
    requires Bounded(subs)
    ensures Bounded(Applied(subs, op))
  {
    match op
    case Add(who, pattern, port) => AddedKeepsBounds(subs, who, pattern, port);
    case Remove(who, which) => RemovedKeepsBounds(subs, who, which);
  }

  /** An operation by an endpoint that equals itself, and no redirect to one that somebody else has. */
  predicate ClearOp(b: Both, op: Op) {
    && Identifiable(op.who)
    && (op.Add? ==> Clear(b.m, IdentityOf(op.who), op.pattern, DeliveryOf(op.who, op.port)))
  }

  predicate AllClear(ops: seq<Op>, n: nat)
    requires n <= |ops|
  {
    Runs.AllAllowed(NOBODY, BothApplied, ops, n, ClearOp)
  }

  predicate Agree(b: Both) {
    Refines(b.subs, b.m) && Bounded(b.subs)
  }

  lemma ClearKeepsAgreement()
    ensures Runs.Keeps(BothApplied, Agree, ClearOp)
  {
    forall b: Both, op | Agree(b) && ClearOp(b, op) ensures Agree(BothApplied(b, op)) {
      OperationRefines(b.subs, b.m, op);
      OperationKeepsBounds(b.subs, op);
    }
  }

  /** On every run whose redirects take no one else's endpoint, the vector is a map from endpoints to
      non-empty pattern sets. */
  lemma EveryRunRefines(ops: seq<Op>, n: nat)
    requires n <= |ops| && AllClear(ops, n)
    ensures Agree(After(ops, n))
  {
    ClearKeepsAgreement();
    Runs.EveryRunKeeps(NOBODY, BothApplied, ops, n, Agree, ClearOp);
  }

  lemma OperationRefines(subs: seq<Subscriber>, m: Abstract, op: Op)
    requires Refines(subs, m) && Bounded(subs) && ClearOp(Both(subs, m), op)
    ensures Refines(Applied(subs, op), AbstractApplied(m, op))
  {
    match op
    case Add(who, pattern, port) => AddRefines(subs, m, who, pattern, port);
    case Remove(who, which) => RemoveRefines(subs, m, who, which);
  }

  predicate UniqueVector(b: Both) {
    Unique(b.subs)
  }

  /** As long as every endpoint equals itself, endpoints stay unique throughout a run exactly when no
      redirect takes somebody else's. */
  lemma RunStaysUniqueIff(ops: seq<Op>, n: nat)
    requires n <= |ops| && forall k :: 0 <= k < |ops| ==> Identifiable(ops[k].who)
    ensures Runs.GoodThroughout(NOBODY, BothApplied, ops, n, UniqueVector) <==> AllClear(ops, n)
  {
    ClearKeepsAgreement();
    forall b: Both, op | Agree(b) && op in ops && !ClearOp(b, op) ensures !UniqueVector(BothApplied(b, op)) {
      TakenNameDuplicates(b.subs, b.m, op.who, op.pattern, op.port);
    }
    Runs.GoodIffAllowed(NOBODY, BothApplied, ops, n, Agree, ClearOp, UniqueVector);
  }

  /** Without redirects nobody's endpoint is ever taken. */
  lemma NoRedirectsAreClear(ops: seq<Op>, n: nat)
    requires n <= |ops| && forall k :: 0 <= k < |ops| ==> Identifiable(ops[k].who)
    requires forall k :: 0 <= k < |ops| && ops[k].Add? ==> ops[k].port <= 0
    ensures AllClear(ops, n)
  {
    forall b: Both, op | op in ops ensures ClearOp(b, op) {
      assert op.Add? ==> DeliveryOf(op.who, op.port) == IdentityOf(op.who);
    }
  }

  // ---- fan-out over the map --------------------------------------------------

  ghost predicate WantsAny(patterns: set<string>, address: string) {
    exists p :: p in patterns && Glob.Accepts(p, address)
  }

  lemma WantsIsWantsAny(patterns: seq<string>, address: string)
    ensures Wants(patterns, address) <==> WantsAny(SetOf(patterns), address)
  {
    if Wants(patterns, address) {
      var k :| 0 <= k < |patterns| && Glob.Accepts(patterns[k], address);
      assert patterns[k] in SetOf(patterns);
    }
  }

  /** The targets from the `k`-th subscriber on are identifiable, pairwise different, and exactly the
      endpoints that want the address. */
  lemma {:induction false} TargetsFrom(subs: seq<Subscriber>, address: string, k: nat)
    requires Unique(subs) && k <= |subs|
    ensures forall t :: t in Targets(subs, address, k) <==>
              exists i :: k <= i < |subs| && subs[i].endpoint == t && Wants(subs[i].patterns, address)
    ensures forall i, j :: 0 <= i < j < |Targets(subs, address, k)| ==>
              Targets(subs, address, k)[i] != Targets(subs, address, k)[j]
    decreases |subs| - k
  {
    if k < |subs| {
      TargetsFrom(subs, address, k + 1);
      assert subs[k].endpoint !in Targets(subs, address, k + 1);
    }
  }

  /** Some target has this endpoint. */
  predicate Reached(ts: seq<SockAddr>, id: Identity) {
    exists i :: 0 <= i < |ts| && Identifiable(ts[i]) && IdentityOf(ts[i]) == id
  }

  /** `osc_publish` reaches each endpoint of the map once if one of its patterns accepts the address,
      and no other endpoint. */
  lemma PublishServesTheMap(subs: seq<Subscriber>, m: Abstract, address: string)
    requires Refines(subs, m)
    ensures var ts := Targets(subs, address);
            && (forall i :: 0 <= i < |ts| ==> Identifiable(ts[i]))
            && (forall i, j :: 0 <= i < j < |ts| ==> IdentityOf(ts[i]) != IdentityOf(ts[j]))
            && forall id :: Reached(ts, id) <==> id in m && WantsAny(m[id], address)
  {
    var ts := Targets(subs, address);
    forall i | 0 <= i < |ts|
      ensures Identifiable(ts[i]) && IdentityOf(ts[i]) in m && WantsAny(m[IdentityOf(ts[i])], address)
    {
      TargetWants(subs, m, address, i);
    }
    TargetsDiffer(subs, address);
    forall id | id in m && WantsAny(m[id], address) ensures Reached(ts, id) {
      WantingIsReached(subs, m, address, id);
    }
  }

  lemma TargetWants(subs: seq<Subscriber>, m: Abstract, address: string, i: nat)
    requires Refines(subs, m) && i < |Targets(subs, address)|
    ensures var t := Targets(subs, address)[i];
            Identifiable(t) && IdentityOf(t) in m && WantsAny(m[IdentityOf(t)], address)
  {
    var t := Targets(subs, address)[i];
    TargetsFrom(subs, address, 0);
    assert t in Targets(subs, address);
    var k :| 0 <= k < |subs| && subs[k].endpoint == t && Wants(subs[k].patterns, address);
    WantsIsWantsAny(subs[k].patterns, address);
  }

  lemma TargetsDiffer(subs: seq<Subscriber>, address: string)
    requires Unique(subs)
    ensures var ts := Targets(subs, address);
            && (forall i :: 0 <= i < |ts| ==> Identifiable(ts[i]))
            && forall i, j :: 0 <= i < j < |ts| ==> IdentityOf(ts[i]) != IdentityOf(ts[j])
  {
    var ts := Targets(subs, address);
    TargetsFrom(subs, address, 0);
    forall i | 0 <= i < |ts| ensures Identifiable(ts[i]) {
      assert ts[i] in ts;
    }
    forall i, j | 0 <= i < j < |ts| ensures IdentityOf(ts[i]) != IdentityOf(ts[j]) {
      assert ts[i] in ts && ts[j] in ts && ts[i] != ts[j];
    }
  }

  lemma WantingIsReached(subs: seq<Subscriber>, m: Abstract, address: string, id: Identity)
    requires Refines(subs, m) && id in m && WantsAny(m[id], address)
    ensures Reached(Targets(subs, address), id)
  {
    assert Has(subs, id);
    var k :| 0 <= k < |subs| && IdentityOf(subs[k].endpoint) == id;
    WantsIsWantsAny(subs[k].patterns, address);
    TargetsFrom(subs, address, 0);
    assert subs[k].endpoint in Targets(subs, address);
  }

  // ---- redirects -------------------------------------------------------------

  /** The entry that a valid subscribe creates or changes; -1 when the registry is full. */
  function Entry(subs: seq<Subscriber>, who: SockAddr): int {
    if Find(subs, who) == |subs| >= MAX_SUBSCRIBERS then -1 else Find(subs, who)
  }

  /** A redirecting subscribe keeps the endpoints unique exactly when no other subscriber has the
      endpoint that the redirect makes. */
  lemma RedirectKeepsUniqueIff(subs: seq<Subscriber>, who: SockAddr, pattern: string, port: int)
    requires Unique(subs) && Identifiable(who) && ValidPattern(pattern) && port > 0
    requires Entry(subs, who) >= 0
    ensures Unique(Added(subs, who, pattern, port)) <==>
            forall j :: 0 <= j < |subs| && j != Entry(subs, who) ==>
              IdentityOf(subs[j].endpoint) != IdentityOf(SetPort(who, port))
  {
    var i := Find(subs, who);
    var subs' := Added(subs, who, pattern, port);
    assert IdentityOf(subs'[i].endpoint) == IdentityOf(SetPort(who, port));
    assert forall j :: 0 <= j < |subs| && j != i ==> subs'[j] == subs[j];
    if Unique(subs') {
      forall j | 0 <= j < |subs| && j != i ensures IdentityOf(subs[j].endpoint) != IdentityOf(SetPort(who, port)) {
        assert subs'[j] == subs[j];
      }
    }
  }

  /** The same redirecting subscribe twice makes two subscribers with one endpoint, so the registry's
      claim that endpoints are unique needs runs without redirects. */
  lemma RepeatedRedirectDuplicates(who: SockAddr, pattern: string, port: int)
    requires Identifiable(who) && ValidPattern(pattern) && 0 < port < 0x1_0000 && port != who.port
    ensures var subs := Added(Added([], who, pattern, port), who, pattern, port);
            |subs| == 2 && EndpointEqual(subs[0].endpoint, subs[1].endpoint) && subs[0].patterns == subs[1].patterns
  {
    var once := Added([], who, pattern, port);
    assert once == [Subscriber(SetPort(who, port), [pattern])];
    assert !EndpointEqual(once[0].endpoint, who);
    assert Find(once, who) == 1;
  }
}
