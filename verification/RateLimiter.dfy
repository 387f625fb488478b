/** The rate limiter of src/osc-feedback.cpp. Times are nanoseconds of the steady clock. */
module RateLimiter {

  const PRUNE_AT: nat := 256
  const STALE_AFTER: int := 5_000_000_000
  const MS: int := 1_000_000

  type Times = map<string, int>

  // ---- one call --------------------------------------------------------------

  /** The map without the entries that are more than five seconds old. */
  function Pruned(m: Times, now: int): Times {
    map k | k in m && now - m[k] <= STALE_AFTER :: m[k]
  }

  /** Pruning happens only once the map has grown. */
  function Trimmed(m: Times, now: int): Times {
    if |m| >= PRUNE_AT then Pruned(m, now) else m
  }

  predicate Refuses(m: Times, key: string, ms: int, now: int) {
    key in m && now - m[key] < ms * MS
  }

  /** The limiter over a map that is never pruned: what an accepted call leaves. */
  function Recorded(m: Times, key: string, ms: int, now: int): Times {
    if Refuses(m, key, ms, now) then m else m[key := now]
  }

  class Limiter {
    var lastSent: Times

    constructor ()
      ensures lastSent == map[]
    {
      lastSent := map[];
    }

    /** `throttled`: true when the call is refused. */
    method Throttled(key: string, ms: int, now: int) returns (refused: bool)
      modifies this
      ensures refused == Refuses(Trimmed(old(lastSent), now), key, ms, now)
      ensures lastSent == Recorded(Trimmed(old(lastSent), now), key, ms, now)
    {
      if |lastSent| >= PRUNE_AT {
        Prune(now);
      }
      if key in lastSent && now - lastSent[key] < ms * MS {
        return true;
      }
      lastSent := lastSent[key := now];
      return false;
    }

    /** The erasing loop, in whatever order the map is walked. */
    method Prune(now: int)
      modifies this
      ensures lastSent == Pruned(old(lastSent), now)
    {
      ghost var was := lastSent;
      var todo := lastSent.Keys;
      while todo != {}
        invariant todo <= was.Keys && todo <= lastSent.Keys
        invariant forall k :: k in lastSent <==> k in was && (k in todo || now - was[k] <= STALE_AFTER)
        invariant forall k :: k in lastSent ==> lastSent[k] == was[k]
        decreases |todo|
      {
        var k :| k in todo;
        todo := todo - {k};
        if now - lastSent[k] > STALE_AFTER {
          lastSent := lastSent - {k};
        }
      }
    }
  }

  // ---- runs ------------------------------------------------------------------

  datatype Call = Call(key: string, ms: int, now: int)

  /** A monotone clock. */
  predicate InTime(calls: seq<Call>) {
    forall i, j :: 0 <= i < j < |calls| ==> calls[i].now <= calls[j].now
  }

  /** Windows of at most five seconds. */
  predicate ShortWindows(calls: seq<Call>) {
    forall i :: 0 <= i < |calls| ==> calls[i].ms <= 5000
  }

  /** The pruned map and the never pruned one after the first `n` calls. */
  function Map(calls: seq<Call>, n: nat): Times
    requires n <= |calls|
  {
    if n == 0 then map[]
    else
      var c := calls[n - 1];
      Recorded(Trimmed(Map(calls, n - 1), c.now), c.key, c.ms, c.now)
  }

  function FullMap(calls: seq<Call>, n: nat): Times
    requires n <= |calls|
  {
    if n == 0 then map[]
    else Recorded(FullMap(calls, n - 1), calls[n - 1].key, calls[n - 1].ms, calls[n - 1].now)
  }

  /** What the limiter answers to the `n`-th call: true for a refusal. */
  predicate Answer(calls: seq<Call>, n: nat)
    requires n < |calls|
  {
    Refuses(Trimmed(Map(calls, n), calls[n].now), calls[n].key, calls[n].ms, calls[n].now)
  }

  predicate FullAnswer(calls: seq<Call>, n: nat)
    requires n < |calls|
  {
    Refuses(FullMap(calls, n), calls[n].key, calls[n].ms, calls[n].now)
  }

  /** The pruned map is part of the full one, and what is missing is stale at time `now`. */
  predicate Covers(full: Times, m: Times, now: int) {
    && (forall k :: k in m ==> k in full && full[k] == m[k])
    && (forall k :: k in full && k !in m ==> now - full[k] > STALE_AFTER)
  }

  lemma CoversAfterCall(full: Times, m: Times, key: string, ms: int, now: int)
    requires Covers(full, m, now) && ms * MS <= STALE_AFTER
    ensures Refuses(Trimmed(m, now), key, ms, now) == Refuses(full, key, ms, now)
    ensures Covers(Recorded(full, key, ms, now), Recorded(Trimmed(m, now), key, ms, now), now)
  {
  }

  lemma CoversLater(full: Times, m: Times, now: int, later: int)
    requires Covers(full, m, now) && now <= later
    ensures Covers(full, m, later)
  {
  }

  lemma {:induction false} MapsAgree(calls: seq<Call>, n: nat)
    requires n < |calls| && InTime(calls) && ShortWindows(calls)
    ensures Covers(FullMap(calls, n), Map(calls, n), calls[n].now)
    ensures Answer(calls, n) == FullAnswer(calls, n)
    decreases n
  {
    var c := calls[n];
    if n > 0 {
      MapsAgree(calls, n - 1);
      var b := calls[n - 1];
      CoversAfterCall(FullMap(calls, n - 1), Map(calls, n - 1), b.key, b.ms, b.now);
      CoversLater(FullMap(calls, n), Map(calls, n), b.now, c.now);
    }
    CoversAfterCall(FullMap(calls, n), Map(calls, n), c.key, c.ms, c.now);
  }

  /** An accepted call for the same key less than the window of the `n`-th call ago. */
  predicate RecentlyAccepted(calls: seq<Call>, n: nat)
    requires n < |calls|
  {
    exists i :: 0 <= i < n && calls[i].key == calls[n].key && !FullAnswer(calls, i)
                && calls[n].now - calls[i].now < calls[n].ms * 1_000_000
  }

  /** The full map holds the time of the last accepted call of every key. */
  lemma {:induction false} FullMapIsLastAccepted(calls: seq<Call>, n: nat, key: string)
    requires n <= |calls| && InTime(calls)
    ensures key in FullMap(calls, n) <==> exists i :: 0 <= i < n && calls[i].key == key && !FullAnswer(calls, i)
    ensures key in FullMap(calls, n) ==>
              exists i :: 0 <= i < n && calls[i].key == key && !FullAnswer(calls, i)
                          && FullMap(calls, n)[key] == calls[i].now
    ensures forall i :: 0 <= i < n && calls[i].key == key && !FullAnswer(calls, i) ==>
              calls[i].now <= FullMap(calls, n)[key]
    decreases n
  {
    if n > 0 {
      FullMapIsLastAccepted(calls, n - 1, key);
      assert !FullAnswer(calls, n - 1) ==>
          FullMap(calls, n) == FullMap(calls, n - 1)[calls[n - 1].key := calls[n - 1].now];
      if key in FullMap(calls, n - 1) && FullMap(calls, n)[key] != FullMap(calls, n - 1)[key] {
        assert !FullAnswer(calls, n - 1) && calls[n - 1].key == key;
      }
    }
  }

  /** Under a monotone clock and windows of at most five seconds, pruning is never observed, and a call
      is refused exactly when an accepted call for its key lies less than its own window back. */
  lemma RefusedIffRecentlyAccepted(calls: seq<Call>, n: nat)
    requires n < |calls| && InTime(calls) && ShortWindows(calls)
    ensures Answer(calls, n) == FullAnswer(calls, n)
    ensures Answer(calls, n) <==> RecentlyAccepted(calls, n)
  {
    MapsAgree(calls, n);
    FullMapIsLastAccepted(calls, n, calls[n].key);
  }

  /** Accepted calls for one key are at least the later call's window apart. */
  lemma AcceptedCallsAreApart(calls: seq<Call>, i: nat, j: nat)
    requires i < j < |calls| && InTime(calls) && ShortWindows(calls)
    requires calls[i].key == calls[j].key && !Answer(calls, i) && !Answer(calls, j)
    ensures calls[j].now - calls[i].now >= calls[j].ms * 1_000_000
  {
    MapsAgree(calls, i);
    RefusedIffRecentlyAccepted(calls, j);
  }

  // ---- longer windows --------------------------------------------------------

  /** The pruned limiter has answered the first `n` calls like the unpruned one. */
  predicate AgreeSoFar(calls: seq<Call>, n: nat)
    requires n <= |calls|
  {
    forall i :: 0 <= i < n ==> Answer(calls, i) == FullAnswer(calls, i)
  }

  /** One of the first `n` calls pruned the map when the time `t` was more than five seconds back. */
  predicate PrunedSince(calls: seq<Call>, n: nat, t: int)
    requires n <= |calls|
  {
    n > 0 && (PrunedSince(calls, n - 1, t)
              || (|Map(calls, n - 1)| >= 256 && calls[n - 1].now - t > 5_000_000_000))
  }

  /** The window of the `n`-th call still reaches back to the last accepted call for its key, but that
      one has been pruned. */
  predicate Forgets(calls: seq<Call>, n: nat)
    requires n < |calls|
  {
    var c, full := calls[n], FullMap(calls, n);
    Refuses(full, c.key, c.ms, c.now) && PrunedSince(calls, n + 1, full[c.key])
  }

  /** What is left of a map that has answered well: all but the pruned keys. */
  predicate LeftOf(calls: seq<Call>, n: nat, full: Times, m: Times)
    requires n <= |calls|
  {
    && (forall k :: k in m ==> k in full && full[k] == m[k])
    && forall k :: k in full ==> (k in m <==> !PrunedSince(calls, n, full[k]))
  }

  lemma TrimmedIsLeft(calls: seq<Call>, n: nat, full: Times, m: Times)
    requires n < |calls| && m == Map(calls, n) && LeftOf(calls, n, full, m)
    ensures LeftOf(calls, n + 1, full, Trimmed(m, calls[n].now))
  {
  }

  /** An accepted call is younger than every pruning so far. */
  lemma RecordedIsLeft(calls: seq<Call>, n: nat, full: Times, m: Times)
    requires n < |calls| && InTime(calls) && LeftOf(calls, n + 1, full, m)
    ensures LeftOf(calls, n + 1, full[calls[n].key := calls[n].now], m[calls[n].key := calls[n].now])
  {
    NotPrunedSince(calls, n + 1, calls[n].now);
  }

  lemma {:induction false} NotPrunedSince(calls: seq<Call>, n: nat, t: int)
    requires n <= |calls| && forall i :: 0 <= i < n ==> calls[i].now <= t
    ensures !PrunedSince(calls, n, t)
    decreases n
  {
    if n > 0 {
      NotPrunedSince(calls, n - 1, t);
    }
  }

  lemma {:induction false} MapIsLeft(calls: seq<Call>, n: nat)
    requires n <= |calls| && InTime(calls) && AgreeSoFar(calls, n)
    ensures LeftOf(calls, n, FullMap(calls, n), Map(calls, n))
    decreases n
  {
    if n > 0 {
      MapIsLeft(calls, n - 1);
      CallIsLeft(calls, n - 1, FullMap(calls, n - 1), Map(calls, n - 1));
    }
  }

  lemma CallIsLeft(calls: seq<Call>, n: nat, full: Times, m: Times)
    requires n < |calls| && InTime(calls) && Answer(calls, n) == FullAnswer(calls, n)
    requires full == FullMap(calls, n) && m == Map(calls, n) && LeftOf(calls, n, full, m)
    ensures LeftOf(calls, n + 1, FullMap(calls, n + 1), Map(calls, n + 1))
  {
    TrimmedIsLeft(calls, n, full, m);
    RecordedIsLeft(calls, n, full, Trimmed(m, calls[n].now));
  }

  lemma DiffersIffForgets(calls: seq<Call>, n: nat)
    requires n < |calls| && InTime(calls) && AgreeSoFar(calls, n)
    ensures Answer(calls, n) != FullAnswer(calls, n) <==> Forgets(calls, n)
  {
    MapIsLeft(calls, n);
    TrimmedIsLeft(calls, n, FullMap(calls, n), Map(calls, n));
  }

  /** Whatever the windows are: pruning is not observed on a run exactly when no call's window reaches
      back to an accepted call of its key that has been pruned. */
  lemma {:induction false} PruningShowsIff(calls: seq<Call>, n: nat)
    requires n <= |calls| && InTime(calls)
    ensures AgreeSoFar(calls, n) <==> forall i :: 0 <= i < n ==> !Forgets(calls, i)
    decreases n
  {
    if n > 0 {
      PruningShowsIff(calls, n - 1);
      if AgreeSoFar(calls, n - 1) {
        DiffersIffForgets(calls, n - 1);
      }
    }
  }
}
