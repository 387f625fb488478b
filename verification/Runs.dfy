/** Runs: a system starts somewhere and carries out one operation after the other. */
module Runs {

  /** The state after the first `n` operations. */
  function After<S, O>(start: S, next: (S, O) -> S, ops: seq<O>, n: nat): S
    requires n <= |ops|
  {
    if n == 0 then start else next(After(start, next, ops, n - 1), ops[n - 1])
  }

  /** The first `n` operations are allowed where they happen. */
  predicate AllAllowed<S, O>(start: S, next: (S, O) -> S, ops: seq<O>, n: nat, allowed: (S, O) -> bool)
    requires n <= |ops|
  {
    forall k {:trigger allowed(After(start, next, ops, k), ops[k])} ::
      0 <= k < n ==> allowed(After(start, next, ops, k), ops[k])
  }

  ghost predicate Keeps<S(!new), O(!new)>(next: (S, O) -> S, inv: S -> bool, allowed: (S, O) -> bool) {
    forall s, o {:trigger next(s, o)} :: inv(s) && allowed(s, o) ==> inv(next(s, o))
  }

  /** What allowed operations keep holds on every run of them. */
  lemma {:induction false} EveryRunKeeps<S(!new), O(!new)>(start: S, next: (S, O) -> S, ops: seq<O>, n: nat,
                                                           inv: S -> bool, allowed: (S, O) -> bool)
    requires n <= |ops| && inv(start) && Keeps(next, inv, allowed) && AllAllowed(start, next, ops, n, allowed)
    ensures inv(After(start, next, ops, n))
    decreases n
  {
    if n > 0 {
      EveryRunKeeps(start, next, ops, n - 1, inv, allowed);
      assert allowed(After(start, next, ops, n - 1), ops[n - 1]);
    }
  }

  /** The same from any point of a run on. */
  lemma {:induction false} LaterKeeps<S(!new), O(!new)>(start: S, next: (S, O) -> S, ops: seq<O>, n: nat, m: nat,
                                                        inv: S -> bool, allowed: (S, O) -> bool)
    requires n <= m <= |ops| && inv(After(start, next, ops, n))
    requires Keeps(next, inv, allowed) && AllAllowed(start, next, ops, m, allowed)
    ensures inv(After(start, next, ops, m))
    decreases m
  {
    if n < m {
      LaterKeeps(start, next, ops, n, m - 1, inv, allowed);
      assert allowed(After(start, next, ops, m - 1), ops[m - 1]);
    }
  }

  /** What is allowed up to the `m`-th operation is allowed up to every earlier one. */
  lemma AllowedBefore<S(!new), O(!new)>(start: S, next: (S, O) -> S, ops: seq<O>, n: nat, m: nat,
                                        allowed: (S, O) -> bool)
    requires n <= m <= |ops| && AllAllowed(start, next, ops, m, allowed)
    ensures AllAllowed(start, next, ops, n, allowed)
    ensures n < m ==> allowed(After(start, next, ops, n), ops[n])
  {
    assert n < m ==> allowed(After(start, next, ops, n), ops[n]);
  }

  /** One more allowed operation. */
  lemma OneMore<S(!new), O(!new)>(start: S, next: (S, O) -> S, ops: seq<O>, n: nat, allowed: (S, O) -> bool)
    requires n < |ops| && AllAllowed(start, next, ops, n, allowed)
    requires allowed(After(start, next, ops, n), ops[n])
    ensures AllAllowed(start, next, ops, n + 1, allowed)
    ensures After(start, next, ops, n + 1) == next(After(start, next, ops, n), ops[n])
  {
  }

  /** An operation of the run that is not allowed where it happens spoils what the invariant promises. */
  ghost predicate Spoils<S(!new), O(!new)>(next: (S, O) -> S, ops: seq<O>, inv: S -> bool, allowed: (S, O) -> bool,
                                           good: S -> bool) {
    && (forall s :: inv(s) ==> good(s))
    && forall s, o {:trigger next(s, o)} :: inv(s) && o in ops && !allowed(s, o) ==> !good(next(s, o))
  }

  ghost predicate GoodThroughout<S(!new), O(!new)>(start: S, next: (S, O) -> S, ops: seq<O>, n: nat, good: S -> bool)
    requires n <= |ops|
  {
    forall k: nat {:trigger good(After(start, next, ops, k))} :: k <= n ==> good(After(start, next, ops, k))
  }

  /** Then runs are good throughout exactly when all their operations are allowed. */
  lemma GoodIffAllowed<S(!new), O(!new)>(start: S, next: (S, O) -> S, ops: seq<O>, n: nat,
                                         inv: S -> bool, allowed: (S, O) -> bool, good: S -> bool)
    requires n <= |ops| && inv(start) && Keeps(next, inv, allowed) && Spoils(next, ops, inv, allowed, good)
    ensures GoodThroughout(start, next, ops, n, good) <==> AllAllowed(start, next, ops, n, allowed)
  {
    if AllAllowed(start, next, ops, n, allowed) {
      forall k: nat | k <= n ensures good(After(start, next, ops, k)) {
        EveryRunKeeps(start, next, ops, k, inv, allowed);
      }
    } else if GoodThroughout(start, next, ops, n, good) {
      AllowedIfGood(start, next, ops, n, inv, allowed, good);
    }
  }

  lemma {:induction false} AllowedIfGood<S(!new), O(!new)>(start: S, next: (S, O) -> S, ops: seq<O>, n: nat,
                                                           inv: S -> bool, allowed: (S, O) -> bool, good: S -> bool)
    requires n <= |ops| && inv(start) && Keeps(next, inv, allowed) && Spoils(next, ops, inv, allowed, good)
    requires GoodThroughout(start, next, ops, n, good)
    ensures AllAllowed(start, next, ops, n, allowed)
    decreases n
  {
    if n > 0 {
      GoodBefore(start, next, ops, n, good);
      AllowedIfGood(start, next, ops, n - 1, inv, allowed, good);
      EveryRunKeeps(start, next, ops, n - 1, inv, allowed);
      assert allowed(After(start, next, ops, n - 1), ops[n - 1]);
      OneMore(start, next, ops, n - 1, allowed);
    }
  }

  lemma GoodBefore<S(!new), O(!new)>(start: S, next: (S, O) -> S, ops: seq<O>, n: nat, good: S -> bool)
    requires 0 < n <= |ops| && GoodThroughout(start, next, ops, n, good)
    ensures GoodThroughout(start, next, ops, n - 1, good)
    ensures good(next(After(start, next, ops, n - 1), ops[n - 1]))
  {
    assert good(After(start, next, ops, n));
  }
}
