/** The `*` / `?` filename matcher that six node tools carry a copy of
    (tools/fs-find/src/main.rs:30-54, tools/compliance-scan/src/main.rs:199-210). */
module Glob {

  /** Declarative meaning: `*` stands for any run of characters, `?` for exactly one. */
  predicate Matches(p: string, t: string)
    decreases |p| + |t|
  {
    if p == "" then t == ""
    else if p[0] == '*' then Matches(p[1..], t) || (t != "" && Matches(p, t[1..]))
    else t != "" && (p[0] == '?' || p[0] == t[0]) && Matches(p[1..], t[1..])
  }

  predicate AllStars(p: string) {
    forall i | 0 <= i < |p| :: p[i] == '*'
  }

  /** The backtracking point: the last `*` taken as a wildcard and the text position it retries from. */
  datatype Mark = NoStar | Star(star: nat, mark: nat)

  ghost predicate InRange(p: string, t: string, pi: nat, ti: nat, m: Mark) {
    && pi <= |p| && ti <= |t|
    && (m.Star? ==> m.star < pi && m.mark <= ti && p[m.star] == '*' && ti - m.mark == pi - m.star - 1)
  }

  function MarkPos(m: Mark): nat { if m.Star? then m.mark else 0 }

  /** One run of the two-pointer loop from the given pointers. The literal test comes before the
      `*` test, as in the source, so a `*` in the text can be used up by a `*` in the pattern. */
  predicate Run(p: string, t: string, pi: nat, ti: nat, m: Mark)
    requires InRange(p, t, pi, ti, m)
    decreases |t| - MarkPos(m), |p| - pi
  {
    if ti == |t| then AllStars(p[pi..])
    else if pi < |p| && (p[pi] == '?' || p[pi] == t[ti]) then Run(p, t, pi + 1, ti + 1, m)
    else if pi < |p| && p[pi] == '*' then Run(p, t, pi + 1, ti, Star(pi, ti))
    else if m.Star? then Run(p, t, m.star + 1, m.mark + 1, Star(m.star, m.mark + 1))
    else false
  }

  /** What the code answers for a pattern and a name. */
  predicate Accepts(p: string, t: string) {
    Run(p, t, 0, 0, NoStar)
  }

  method GlobMatch(p: string, t: string) returns (ok: bool)
    ensures ok == Accepts(p, t)
    ensures ok ==> Matches(p, t)
    ensures '*' !in p || '*' !in t ==> ok == Matches(p, t)
  {
    CodeMeetsMeaning(p, t);
    var pi: nat, ti: nat, m := 0, 0, NoStar;
    while ti < |t|
      invariant InRange(p, t, pi, ti, m)
      invariant Accepts(p, t) == Run(p, t, pi, ti, m)
      decreases |t| - MarkPos(m), |p| - pi
    {
      if pi < |p| && (p[pi] == '?' || p[pi] == t[ti]) {
        pi, ti := pi + 1, ti + 1;
      } else if pi < |p| && p[pi] == '*' {
        m := Star(pi, ti);
        pi := pi + 1;
      } else if m.Star? {
        pi, ti := m.star + 1, m.mark + 1;
        m := Star(m.star, m.mark + 1);
      } else {
        return false;
      }
    }
    ghost var rest := pi;
    while pi < |p| && p[pi] == '*'
      invariant rest <= pi <= |p|
      invariant forall i | rest <= i < pi :: p[i] == '*'
    {
      pi := pi + 1;
    }
    assert pi < |p| ==> p[rest..][pi - rest] != '*';
    ok := pi == |p|;
  }

  // ---------- soundness: an accepted name always matches ----------

  lemma {:induction false} EmptyText(p: string)
    ensures Matches(p, "") <==> AllStars(p)
  {
    if p != "" {
      EmptyText(p[1..]);
      assert AllStars(p) <==> p[0] == '*' && AllStars(p[1..]) by {
        if p[0] == '*' && AllStars(p[1..]) {
          forall i | 0 <= i < |p| ensures p[i] == '*' { assert i > 0 ==> p[i] == p[1..][i - 1]; }
        }
      }
    }
  }

  /** What follows the last star matches the text from its mark on or later. */
  ghost predicate MatchesFrom(p: string, t: string, m: Mark) {
    m.Star? && m.star < |p| && exists k :: m.mark <= k <= |t| && Matches(p[m.star + 1..], t[k..])
  }

  lemma StarMatches(p: string, t: string, pi: nat, ti: nat)
    requires pi < |p| && ti <= |t| && p[pi] == '*'
    requires Matches(p[pi + 1..], t[ti..]) || MatchesFrom(p, t, Star(pi, ti))
    ensures Matches(p[pi..], t[ti..])
  {
    var k :| ti <= k <= |t| && Matches(p[pi + 1..], t[k..]);
    StarAbsorbs(p, t, pi, ti, k);
  }

  lemma RetryMatches(p: string, t: string, m: Mark)
    requires m.Star? && m.star < |p| && m.mark < |t|
    requires Matches(p[m.star + 1..], t[m.mark + 1..]) || MatchesFrom(p, t, Star(m.star, m.mark + 1))
    ensures MatchesFrom(p, t, m)
  {
  }

  lemma {:induction false} RunSound(p: string, t: string, pi: nat, ti: nat, m: Mark)
    requires InRange(p, t, pi, ti, m)
    requires Run(p, t, pi, ti, m)
    ensures Matches(p[pi..], t[ti..]) || MatchesFrom(p, t, m)
    decreases |t| - MarkPos(m), |p| - pi
  {
    if ti == |t| {
      EmptyText(p[pi..]);
    } else if pi < |p| && (p[pi] == '?' || p[pi] == t[ti]) {
      RunSound(p, t, pi + 1, ti + 1, m);
      if Matches(p[pi + 1..], t[ti + 1..]) {
        OneChar(p, t, pi, ti);
      }
    } else if pi < |p| && p[pi] == '*' {
      RunSound(p, t, pi + 1, ti, Star(pi, ti));
      StarMatches(p, t, pi, ti);
    } else {
      RunSound(p, t, m.star + 1, m.mark + 1, Star(m.star, m.mark + 1));
      RetryMatches(p, t, m);
    }
  }

  lemma OneChar(p: string, t: string, pi: nat, ti: nat)
    requires pi < |p| && ti < |t| && (p[pi] == '?' || p[pi] == t[ti])
    requires Matches(p[pi + 1..], t[ti + 1..])
    ensures Matches(p[pi..], t[ti..])
  {
    assert p[pi..][1..] == p[pi + 1..] && t[ti..][1..] == t[ti + 1..];
    if p[pi] == '*' {
      StarAbsorbs(p, t, pi, ti, ti + 1);
    }
  }

  /** A `*` may stand for any run, so a match of the rest further on is a match here. */
  lemma {:induction false} StarAbsorbs(p: string, t: string, pi: nat, ti: nat, k: nat)
    requires pi < |p| && ti <= k <= |t| && p[pi] == '*'
    requires Matches(p[pi + 1..], t[k..])
    ensures Matches(p[pi..], t[ti..])
    decreases k - ti
  {
    assert p[pi..][1..] == p[pi + 1..];
    if ti < k {
      StarAbsorbs(p, t, pi, ti + 1, k);
      assert t[ti..][1..] == t[ti + 1..];
    }
  }

  // ---------- completeness when no star can be used up literally ----------

  lemma {:induction false} StarGives(p: string, t: string, pi: nat, ti: nat) returns (k: nat)
    requires pi < |p| && ti <= |t| && p[pi] == '*'
    requires Matches(p[pi..], t[ti..])
    ensures ti <= k <= |t| && Matches(p[pi + 1..], t[k..])
    decreases |t| - ti
  {
    assert p[pi..][1..] == p[pi + 1..];
    if Matches(p[pi + 1..], t[ti..]) {
      k := ti;
    } else {
      assert t[ti..][1..] == t[ti + 1..];
      k := StarGives(p, t, pi, ti + 1);
    }
  }

  /** A star-free stretch of pattern uses up exactly as much text as it is long. */
  lemma {:induction false} PlainStretch(p: string, t: string, a: nat, b: nat, k: nat)
    requires a <= b <= |p| && k <= |t| && '*' !in p[a..b]
    requires Matches(p[a..], t[k..])
    ensures k + (b - a) <= |t| && Matches(p[b..], t[k + (b - a)..])
    decreases b - a
  {
    if a < b {
      assert p[a] == p[a..b][0];
      assert p[a..][1..] == p[a + 1..] && t[k..][1..] == t[k + 1..];
      assert p[a + 1..b] == p[a..b][1..];
      PlainStretch(p, t, a + 1, b, k + 1);
    }
  }

  ghost predicate SavedMatch(p: string, t: string, m: Mark) {
    m.Star? && m.star < |p| && exists k :: m.mark < k <= |t| && Matches(p[m.star + 1..], t[k..])
  }

  /** A match saved at the last star leaves room for the stretch read since then. */
  lemma SavedReaches(p: string, t: string, pi: nat, ti: nat, m: Mark) returns (k: nat)
    requires InRange(p, t, pi, ti, m) && SavedMatch(p, t, m) && '*' !in p[m.star + 1..pi]
    ensures ti < k <= |t| && Matches(p[pi..], t[k..])
  {
    var j :| m.mark < j <= |t| && Matches(p[m.star + 1..], t[j..]);
    PlainStretch(p, t, m.star + 1, pi, j);
    k := j + (pi - m.star - 1);
  }

  /** At a new star the older saved matches are not needed any more. */
  lemma NewStarSubsumes(p: string, t: string, pi: nat, ti: nat, m: Mark)
    requires InRange(p, t, pi, ti, m) && pi < |p| && p[pi] == '*'
    requires SavedMatch(p, t, m) && '*' !in p[m.star + 1..pi]
    ensures Matches(p[pi..], t[ti..])
  {
    var k := SavedReaches(p, t, pi, ti, m);
    var j := StarGives(p, t, pi, k);
    StarAbsorbs(p, t, pi, ti, j);
  }

  lemma MatchHere(p: string, t: string, pi: nat, ti: nat)
    requires pi <= |p| && ti < |t| && (pi < |p| ==> p[pi] != '*')
    ensures Matches(p[pi..], t[ti..]) <==>
            pi < |p| && (p[pi] == '?' || p[pi] == t[ti]) && Matches(p[pi + 1..], t[ti + 1..])
  {
    if pi < |p| { assert p[pi..][1..] == p[pi + 1..] && t[ti..][1..] == t[ti + 1..]; }
  }

  /** A match that is still possible: from the current pointers or from a later retry of the last star. */
  ghost predicate Hopeful(p: string, t: string, pi: nat, ti: nat, m: Mark)
    requires pi <= |p| && ti <= |t|
  {
    Matches(p[pi..], t[ti..]) || SavedMatch(p, t, m)
  }

  lemma PlainBeforeStep(p: string, pi: nat, m: Mark)
    requires m.Star? && m.star < pi < |p| && '*' !in p[m.star + 1..pi] && p[pi] != '*'
    ensures '*' !in p[m.star + 1..pi + 1]
  {
    assert p[m.star + 1..pi + 1] == p[m.star + 1..pi] + [p[pi]];
  }

  lemma NewStarHopeful(p: string, t: string, pi: nat, ti: nat, m: Mark)
    requires InRange(p, t, pi, ti, m) && pi < |p| && p[pi] == '*'
    requires Hopeful(p, t, pi, ti, m) && (m.Star? ==> '*' !in p[m.star + 1..pi])
    ensures Hopeful(p, t, pi + 1, ti, Star(pi, ti))
  {
    if SavedMatch(p, t, m) { NewStarSubsumes(p, t, pi, ti, m); }
    var j := StarGives(p, t, pi, ti);
  }

  lemma RetryHopeful(p: string, t: string, m: Mark)
    requires SavedMatch(p, t, m)
    ensures m.mark + 1 <= |t| && Hopeful(p, t, m.star + 1, m.mark + 1, Star(m.star, m.mark + 1))
    ensures '*' !in p[m.star + 1..m.star + 1]
  {
    var k :| m.mark < k <= |t| && Matches(p[m.star + 1..], t[k..]);
    assert k > m.mark + 1 ==> SavedMatch(p, t, Star(m.star, m.mark + 1));
  }

  /** Backtracking only to the last star loses no match. */
  lemma {:induction false} RunComplete(p: string, t: string, pi: nat, ti: nat, m: Mark)
    requires InRange(p, t, pi, ti, m)
    requires '*' !in p || '*' !in t
    requires m.Star? ==> '*' !in p[m.star + 1..pi]
    requires Hopeful(p, t, pi, ti, m)
    ensures Run(p, t, pi, ti, m)
    decreases |t| - MarkPos(m), |p| - pi
  {
    if ti == |t| {
      if SavedMatch(p, t, m) { var k := SavedReaches(p, t, pi, ti, m); }
      EmptyText(p[pi..]);
    } else if pi < |p| && p[pi] == '*' {
      assert p[pi] != t[ti];
      NewStarHopeful(p, t, pi, ti, m);
      RunComplete(p, t, pi + 1, ti, Star(pi, ti));
    } else {
      MatchHere(p, t, pi, ti);
      if pi < |p| && (p[pi] == '?' || p[pi] == t[ti]) {
        if m.Star? { PlainBeforeStep(p, pi, m); }
        RunComplete(p, t, pi + 1, ti + 1, m);
      } else {
        RetryHopeful(p, t, m);
        RunComplete(p, t, m.star + 1, m.mark + 1, Star(m.star, m.mark + 1));
      }
    }
  }

  lemma CodeMeetsMeaning(p: string, t: string)
    ensures Accepts(p, t) ==> Matches(p, t)
    ensures '*' !in p || '*' !in t ==> Accepts(p, t) == Matches(p, t)
  {
    assert p[0..] == p && t[0..] == t;
    if Accepts(p, t) { RunSound(p, t, 0, 0, NoStar); }
    if ('*' !in p || '*' !in t) && Matches(p, t) { RunComplete(p, t, 0, 0, NoStar); }
  }

  // ---------- exactly which names and which patterns are safe ----------

  /** With no `*` registered and none left in the pattern, the loop compares lengths. */
  lemma {:induction false} PlainTailNeedsLength(p: string, t: string, pi: nat, ti: nat)
    requires pi <= |p| && ti <= |t| && '*' !in p[pi..]
    requires |p| - pi != |t| - ti
    ensures !Run(p, t, pi, ti, NoStar)
    decreases |t| - ti, |p| - pi
  {
    if ti == |t| {
      assert p[pi..][0] in p[pi..];
    } else if pi < |p| {
      assert p[pi..][0] in p[pi..] && p[pi + 1..] == p[pi..][1..];
      if p[pi] == '?' || p[pi] == t[ti] { PlainTailNeedsLength(p, t, pi + 1, ti + 1); }
    }
  }

  /** While pattern and text agree character by character no `*` is ever registered. */
  lemma {:induction false} LiteralPrefix(p: string, t: string, i: nat, n: nat)
    requires i <= n <= |p| && n <= |t|
    requires forall j | i <= j < n :: p[j] == '?' || p[j] == t[j]
    ensures Run(p, t, i, i, NoStar) == Run(p, t, n, n, NoStar)
    decreases n - i
  {
    if i < n { LiteralPrefix(p, t, i + 1, n); }
  }

  lemma {:induction false} PlainMatches(p: string, t: string)
    requires |p| == |t|
    requires forall j | 0 <= j < |p| :: p[j] == '?' || p[j] == t[j]
    ensures Matches(p, t)
  {
    if p != "" {
      PlainMatches(p[1..], t[1..]);
      if p[0] == '*' {
        assert t == [t[0]] + t[1..];
        assert p[0..] == p && t[0..] == t;
        StarAbsorbs(p, t, 0, 0, 1);
      }
    }
  }

  /** Matching a fixed number of leading characters with `?` or themselves. */
  lemma {:induction false} SkipPrefix(p: string, t: string, i: nat, n: nat)
    requires i <= n <= |p| && n <= |t|
    requires forall j | i <= j < n :: p[j] == '?' || p[j] == t[j]
    requires Matches(p[n..], t[n..])
    ensures Matches(p[i..], t[i..])
    decreases n - i
  {
    if i < n {
      SkipPrefix(p, t, i + 1, n);
      OneChar(p, t, i, i);
    }
  }

  function Questions(n: nat): (q: string)
    ensures |q| == n && forall i | 0 <= i < n :: q[i] == '?'
  {
    seq(n, _ => '?')
  }

  /** A name is matched as the notation says by every pattern exactly when it contains no `*`. */
  lemma SafeNames(t: string)
    ensures (forall p :: Accepts(p, t) == Matches(p, t)) <==> '*' !in t
  {
    if '*' !in t {
      forall p ensures Accepts(p, t) == Matches(p, t) { CodeMeetsMeaning(p, t); }
    } else {
      var u :| 0 <= u < |t| && t[u] == '*';
      var p := Questions(u) + "*" + Questions(|t| - u);
      // The code spends the pattern's `*` on the text's `*` and then runs out of text.
      LiteralPrefix(p, t, 0, u + 1);
      assert p[u + 1..] == Questions(|t| - u);
      PlainTailNeedsLength(p, t, u + 1, u + 1);
      // The notation lets `*` be empty and `?` take the text's `*`.
      assert p[u + 1..] == Questions(|t[u..]|);
      PlainMatches(p[u + 1..], t[u..]);
      StarAbsorbs(p, t, u, u, u);
      SkipPrefix(p, t, 0, u);
      assert p[0..] == p && t[0..] == t;
      assert Accepts(p, t) != Matches(p, t);
    }
  }

  /** A pattern works as the notation says on every name exactly when it contains no `*`. */
  lemma SafePatterns(p: string)
    ensures (forall t :: Accepts(p, t) == Matches(p, t)) <==> '*' !in p
  {
    if '*' !in p {
      forall t ensures Accepts(p, t) == Matches(p, t) { CodeMeetsMeaning(p, t); }
    } else {
      var k := LastStar(p);
      var t := p[..k + 1] + "x" + p[k + 1..];
      LiteralPrefix(p, t, 0, k + 1);
      PlainTailNeedsLength(p, t, k + 1, k + 1);
      assert t[k + 2..] == p[k + 1..];
      PlainMatches(p[k + 1..], t[k + 2..]);
      StarAbsorbs(p, t, k, k, k + 2);
      SkipPrefix(p, t, 0, k);
      assert p[0..] == p && t[0..] == t;
      assert Accepts(p, t) != Matches(p, t);
    }
  }

  lemma {:induction false} LastStar(p: string) returns (k: nat)
    requires '*' in p
    ensures k < |p| && p[k] == '*' && '*' !in p[k + 1..]
  {
    if p[|p| - 1] == '*' {
      k := |p| - 1;
    } else {
      assert p == p[..|p| - 1] + [p[|p| - 1]];
      k := LastStar(p[..|p| - 1]);
      assert p[k + 1..] == p[..|p| - 1][k + 1..] + [p[|p| - 1]];
    }
  }

  /** The shortest witness: `*` rejects `*abc`. */
  lemma StarRejectsStarText()
    ensures !Accepts("*", "*abc") && Matches("*", "*abc")
  {
    PlainTailNeedsLength("*", "*abc", 1, 1);
    assert "*"[1..] == "" && "*abc"[4..] == "" && "*"[0..] == "*" && "*abc"[0..] == "*abc";
    StarAbsorbs("*", "*abc", 0, 0, 4);
  }
}
