/** The wildcard matcher of src/osc-util.cpp.

    A pattern and a subject are C strings, modelled as sequences of characters: position `|p|` stands
    for the terminating NUL. `MatchesAt` is what the wildcards are documented to mean, `AcceptsAt` is
    what the two-pointer loop computes, and the lemmas say exactly when the two agree. */
module Glob {

  /** One pattern character consumes one subject character. */
  predicate Fits(p: string, i: nat, s: string, j: nat) {
    i < |p| && j < |s| && (p[i] == '?' || p[i] == s[j])
  }

  /** The meaning of a pattern: `*` stands for any string, `?` for any one character.
      Says whether `p[i..]` describes `s[j..]`. */
  ghost predicate MatchesAt(p: string, i: nat, s: string, j: nat)
    requires i <= |p| && j <= |s|
    decreases |p| - i, 0
  {
    if i == |p| then j == |s|
    else if p[i] == '*' then MatchesFrom(p, i + 1, s, j)
    else Fits(p, i, s, j) && MatchesAt(p, i + 1, s, j + 1)
  }

  /** `p[i..]` describes some suffix of the subject that starts at `j` or later. */
  ghost predicate MatchesFrom(p: string, i: nat, s: string, j: nat)
    requires i <= |p|
    decreases |p| - i, 1
  {
    exists k :: j <= k <= |s| && MatchesAt(p, i, s, k)
  }

  ghost predicate Matches(p: string, s: string) {
    MatchesAt(p, 0, s, 0)
  }

  /** What the loop decides: the literal comparison comes first, so a `*` that faces a `*` of the
      subject consumes just that character; a `*` that faces anything else is a wildcard. */
  ghost predicate AcceptsAt(p: string, i: nat, s: string, j: nat)
    requires i <= |p| && j <= |s|
    decreases |p| - i, 0
  {
    if i == |p| then j == |s|
    else if p[i] == '*' && !Fits(p, i, s, j) then AcceptsFrom(p, i + 1, s, j)
    else Fits(p, i, s, j) && AcceptsAt(p, i + 1, s, j + 1)
  }

  /** `p[i..]` is accepted on some suffix of the subject that starts at `j` or later. */
  ghost predicate AcceptsFrom(p: string, i: nat, s: string, j: nat)
    requires i <= |p|
    decreases |p| - i, 1
  {
    exists k :: j <= k <= |s| && AcceptsAt(p, i, s, k)
  }

  ghost predicate Accepts(p: string, s: string) {
    AcceptsAt(p, 0, s, 0)
  }

  /** The pattern segment `p[i..i + n]` lies character by character on `s[j..j + n]`. */
  ghost predicate Aligned(p: string, i: nat, s: string, j: nat, n: nat)
    requires i + n <= |p| && j + n <= |s|
  {
    forall d :: i <= d < i + n ==> p[d] == '?' || p[d] == s[j + (d - i)]
  }

  /** Why only the last star needs restarting: once a segment lies on `s[j..j + n]`, an attempt that
      started at or after `j` cannot get past the segment earlier than the attempt that lies there. */
  lemma {:induction false} RestartLosesNothing(p: string, i: nat, s: string, j: nat, n: nat, start: nat)
    requires i + n <= |p| && j + n <= |s| && j <= start <= |s|
    requires Aligned(p, i, s, j, n)
    requires AcceptsAt(p, i, s, start)
    ensures AcceptsFrom(p, i + n, s, j + n)
    decreases n
  {
    if n > 0 {
      assert p[i] == '?' || p[i] == s[j];
      if p[i] == '*' && !Fits(p, i, s, start) {
        assert AcceptsFrom(p, i + 1, s, start);
        var k :| start <= k <= |s| && AcceptsAt(p, i + 1, s, k);
        RestartLosesNothing(p, i + 1, s, j + 1, n - 1, k);
      } else {
        RestartLosesNothing(p, i + 1, s, j + 1, n - 1, start + 1);
      }
    }
  }

  /** A star that has become a wildcard at `j` covers every way the star could be passed later on. */
  lemma StarCoversLater(p: string, i: nat, s: string, j: nat)
    requires i < |p| && j <= |s| && p[i] == '*'
    requires AcceptsFrom(p, i, s, j)
    ensures AcceptsFrom(p, i + 1, s, j)
  {
    var k :| j <= k <= |s| && AcceptsAt(p, i, s, k);
    if Fits(p, i, s, k) {
      assert AcceptsAt(p, i + 1, s, k + 1);
    } else {
      assert AcceptsFrom(p, i + 1, s, k);
    }
  }

  /** `k` laps over `n` characters. */
  ghost function Laps(k: nat, n: nat): nat {
    if k == 0 then 0 else n + Laps(k - 1, n)
  }

  lemma {:induction false} LapsGrow(k: nat, m: nat, n: nat)
    requires k <= m
    ensures Laps(k, n) <= Laps(m, n)
    decreases m
  {
    if k < m {
      LapsGrow(k, m - 1, n);
    }
  }

  lemma {:induction false} LapsAreProduct(m: nat, n: nat)
    ensures Laps(m, n) == m * n
    decreases m
  {
    if m > 0 {
      LapsAreProduct(m - 1, n);
      assert m * n == (m - 1) * n + n;
    }
  }

  /** The two-pointer loop. `steps` counts the iterations of the main loop. */
  method GlobMatch(p: string, s: string) returns (r: bool, ghost steps: nat)
    ensures r == Accepts(p, s)
    ensures r ==> Matches(p, s)
    ensures '*' !in s ==> r == Matches(p, s)
    ensures steps <= |s| * |p| + |p| + 1
  {
    var i, j := 0, 0;
    var starred, restartPattern, restartStr := false, 0, 0;
    steps := 0;
    while j < |s|
      invariant i <= |p| && restartStr <= j <= |s|
      invariant starred ==> 1 <= restartPattern && UnderWay(p, i, s, j, restartPattern, restartStr)
      invariant Accepts(p, s) <==> Open(p, i, s, j, starred, restartPattern, restartStr)
      invariant !starred ==> restartStr == 0
      invariant steps <= Laps(restartStr, |p|) + i
      decreases |s| - restartStr, |p| - i
    {
      steps := steps + 1;
      if i < |p| && (p[i] == '?' || p[i] == s[j]) {
        i, j := i + 1, j + 1;
      } else if i < |p| && p[i] == '*' {
        StarTakesOver(p, i, s, j, starred, restartPattern, restartStr);
        LapsGrow(restartStr, j, |p|);
        i := i + 1;
        starred, restartPattern, restartStr := true, i, j;
      } else if starred {
        FromSplits(p, restartPattern, s, restartStr + 1);
        i, restartStr := restartPattern, restartStr + 1;
        j := restartStr;
      } else {
        AtMostLaps(restartStr, s, p);
        AcceptsAndMatches(p, s);
        return false, steps;
      }
    }
    if starred && AcceptsFrom(p, restartPattern, s, restartStr + 1) {
      LaterAttemptReaches(p, i, s, j, restartPattern, restartStr);
    }
    AtMostLaps(restartStr, s, p);
    r := OnlyStarsFrom(p, i, s);
    AcceptsAndMatches(p, s);
  }

  lemma AtMostLaps(k: nat, s: string, p: string)
    requires k <= |s|
    ensures Laps(k, |p|) <= |s| * |p|
  {
    LapsGrow(k, |s|, |p|);
    LapsAreProduct(|s|, |p|);
  }

  lemma AcceptsAndMatches(p: string, s: string)
    ensures Accepts(p, s) ==> Matches(p, s)
    ensures '*' !in s ==> Accepts(p, s) == Matches(p, s)
  {
    AcceptsIsSound(p, 0, s, 0);
    if '*' !in s {
      AcceptsIsComplete(p, 0, s, 0);
    }
  }

  /** Its final loop, at the end of the subject. */
  method OnlyStarsFrom(p: string, start: nat, s: string) returns (r: bool)
    requires start <= |p|
    ensures r == AcceptsAt(p, start, s, |s|)
  {
    var i := start;
    while i < |p| && p[i] == '*'
      invariant i <= |p| && AcceptsAt(p, i, s, |s|) == AcceptsAt(p, start, s, |s|)
    {
      assert AcceptsAt(p, i + 1, s, |s|) == AcceptsAt(p, i, s, |s|);
      i := i + 1;
    }
    r := i == |p|;
  }

  /** An attempt from the last star has reached `i` and `j`. */
  ghost predicate UnderWay(p: string, i: nat, s: string, j: nat, restartPattern: nat, restartStr: nat) {
    && restartPattern <= i <= |p| && restartStr <= j <= |s| && i - restartPattern == j - restartStr
    && Aligned(p, restartPattern, s, restartStr, i - restartPattern)
  }

  /** The subject may still be accepted: by going on, or by restarting from the last star. */
  ghost predicate Open(p: string, i: nat, s: string, j: nat, starred: bool, restartPattern: nat, restartStr: nat)
    requires i <= |p| && j <= |s| && (starred ==> restartPattern <= |p|)
  {
    AcceptsAt(p, i, s, j) || (starred && AcceptsFrom(p, restartPattern, s, restartStr + 1))
  }

  /** A pending attempt from after the restart point reaches the end of the aligned segment. */
  lemma LaterAttemptReaches(p: string, i: nat, s: string, j: nat, restartPattern: nat, restartStr: nat)
    requires UnderWay(p, i, s, j, restartPattern, restartStr)
    requires AcceptsFrom(p, restartPattern, s, restartStr + 1)
    ensures AcceptsFrom(p, i, s, j)
  {
    var k :| restartStr + 1 <= k <= |s| && AcceptsAt(p, restartPattern, s, k);
    RestartLosesNothing(p, restartPattern, s, restartStr, i - restartPattern, k);
  }

  /** A star takes over from the star before it. */
  lemma StarTakesOver(p: string, i: nat, s: string, j: nat, starred: bool, restartPattern: nat, restartStr: nat)
    requires i < |p| && j <= |s| && p[i] == '*' && !Fits(p, i, s, j)
    requires starred ==> UnderWay(p, i, s, j, restartPattern, restartStr)
    ensures Open(p, i, s, j, starred, restartPattern, restartStr) <==> Open(p, i + 1, s, j, true, i + 1, j)
  {
    if starred && AcceptsFrom(p, restartPattern, s, restartStr + 1) {
      LaterAttemptReaches(p, i, s, j, restartPattern, restartStr);
      StarCoversLater(p, i, s, j);
    }
    FromSplits(p, i + 1, s, j);
  }

  lemma FromSplits(p: string, i: nat, s: string, j: nat)
    requires i <= |p| && j <= |s|
    ensures AcceptsFrom(p, i, s, j) <==> AcceptsAt(p, i, s, j) || AcceptsFrom(p, i, s, j + 1)
  {
  }

  /** Soundness, for every pattern and every subject. */
  lemma {:induction false} AcceptsIsSound(p: string, i: nat, s: string, j: nat)
    requires i <= |p| && j <= |s|
    ensures AcceptsAt(p, i, s, j) ==> MatchesAt(p, i, s, j)
    decreases |p| - i
  {
    if i < |p| && AcceptsAt(p, i, s, j) {
      if p[i] == '*' && !Fits(p, i, s, j) {
        assert AcceptsFrom(p, i + 1, s, j);
        var k :| j <= k <= |s| && AcceptsAt(p, i + 1, s, k);
        AcceptsIsSound(p, i + 1, s, k);
        assert MatchesFrom(p, i + 1, s, j);
      } else {
        AcceptsIsSound(p, i + 1, s, j + 1);
      }
    }
  }

  /** Completeness, for every subject that holds no star. */
  lemma {:induction false} AcceptsIsComplete(p: string, i: nat, s: string, j: nat)
    requires i <= |p| && j <= |s| && '*' !in s
    ensures MatchesAt(p, i, s, j) ==> AcceptsAt(p, i, s, j)
    decreases |p| - i
  {
    if i < |p| && MatchesAt(p, i, s, j) {
      if p[i] == '*' {
        assert MatchesFrom(p, i + 1, s, j);
        var k :| j <= k <= |s| && MatchesAt(p, i + 1, s, k);
        AcceptsIsComplete(p, i + 1, s, k);
        assert AcceptsFrom(p, i + 1, s, j);
      } else {
        AcceptsIsComplete(p, i + 1, s, j + 1);
      }
    }
  }

  function Repeat(c: char, n: nat): (r: string)
    ensures |r| == n && forall k :: 0 <= k < n ==> r[k] == c
  {
    if n == 0 then [] else [c] + Repeat(c, n - 1)
  }

  /** A pattern of single wildcards from `i` on accepts exactly the suffixes of that length. */
  lemma {:induction false} QuestionMarks(p: string, i: nat, s: string, j: nat)
    requires i <= |p| && j <= |s|
    requires forall k :: i <= k < |p| ==> p[k] == '?'
    ensures AcceptsAt(p, i, s, j) <==> |p| - i == |s| - j
    ensures MatchesAt(p, i, s, j) <==> |p| - i == |s| - j
    decreases |p| - i
  {
    if i < |p| && j < |s| {
      QuestionMarks(p, i + 1, s, j + 1);
    }
  }

  /** Leading single wildcards only shift the comparison. */
  lemma {:induction false} SkipQuestionMarks(p: string, i: nat, n: nat, s: string)
    requires i <= n <= |p| && n <= |s|
    requires forall k :: i <= k < n ==> p[k] == '?'
    ensures AcceptsAt(p, i, s, i) == AcceptsAt(p, n, s, n)
    ensures MatchesAt(p, i, s, i) == MatchesAt(p, n, s, n)
    decreases n - i
  {
    if i < n {
      SkipQuestionMarks(p, i + 1, n, s);
    }
  }

  /** The matcher agrees with the meaning of its wildcards on every pattern exactly when the subject
      holds no star. */
  lemma AgreesIffNoStarInSubject(s: string)
    ensures (forall p :: Accepts(p, s) == Matches(p, s)) <==> '*' !in s
  {
    if '*' !in s {
      forall p ensures Accepts(p, s) == Matches(p, s) {
        AcceptsAndMatches(p, s);
      }
    } else {
      var n :| 0 <= n < |s| && s[n] == '*';
      var p := Repeat('?', n) + ['*'] + Repeat('?', |s| - n);
      SkipQuestionMarks(p, 0, n, s);
      QuestionMarks(p, n + 1, s, n);
      QuestionMarks(p, n + 1, s, n + 1);
      assert MatchesAt(p, n, s, n) by { assert MatchesAt(p, n + 1, s, n); }
      assert Fits(p, n, s, n);
      assert Matches(p, s) && !Accepts(p, s);
    }
  }

  // ---- exact names -----------------------------------------------------------

  predicate HasWildcard(p: string) {
    '*' in p || '?' in p
  }

  /** A pattern without wildcards accepts itself and nothing else, whatever the subject holds. */
  lemma {:induction false} ExactAt(p: string, i: nat, s: string, j: nat)
    requires i <= |p| && j <= |s| && !HasWildcard(p)
    ensures AcceptsAt(p, i, s, j) <==> p[i..] == s[j..]
    decreases |p| - i
  {
    if i < |p| {
      assert p[i..] == [p[i]] + p[i + 1..];
      if j < |s| {
        assert s[j..] == [s[j]] + s[j + 1..];
        ExactAt(p, i + 1, s, j + 1);
      }
    }
  }

  /** `p` with its stars dropped and its question marks replaced: a subject `p` accepts. */
  function Sample(p: string): (r: string)
    ensures '?' !in r && '*' !in r
  {
    if p == [] then []
    else if p[0] == '*' then Sample(p[1..])
    else [if p[0] == '?' then 'x' else p[0]] + Sample(p[1..])
  }

  lemma {:induction false} SampleAccepted(p: string, i: nat, s: string, j: nat)
    requires i <= |p| && j <= |s| && s[j..] == Sample(p[i..])
    ensures AcceptsAt(p, i, s, j)
    decreases |p| - i
  {
    if i < |p| {
      assert p[i..][0] == p[i] && p[i..][1..] == p[i + 1..];
      if p[i] == '*' {
        assert !Fits(p, i, s, j) by {
          if j < |s| {
            assert s[j] == s[j..][0];
          }
        }
        SampleAccepted(p, i + 1, s, j);
      } else {
        assert s[j] == s[j..][0] && s[j + 1..] == s[j..][1..];
        SampleAccepted(p, i + 1, s, j + 1);
      }
    }
  }

  /** The exact-name shortcut taken for patterns without wildcards is right for those patterns and
      for no others. */
  lemma ExactNameIffNoWildcard(p: string)
    ensures (forall s :: Accepts(p, s) <==> s == p) <==> !HasWildcard(p)
  {
    if !HasWildcard(p) {
      forall s ensures Accepts(p, s) <==> s == p {
        ExactAt(p, 0, s, 0);
        assert p[0..] == p && s[0..] == s;
      }
    } else {
      var s := Sample(p);
      assert p[0..] == p && s[0..] == s;
      SampleAccepted(p, 0, s, 0);
      assert Accepts(p, s) && s != p;
    }
  }
}
