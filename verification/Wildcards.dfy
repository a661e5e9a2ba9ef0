/**
 The wildcard matcher of the ACL engine: a loop with a single backtrack point, related to the
 meaning of a pattern in which `*` stands for any string and every other byte for itself up to
 ASCII case. Texts are the UTF-8 bytes the Rust code works on.
 */
module Wildcards {
  import opened Bytes
  import opened Texts
  import opened Wrappers

  const STAR: u8 := 42

  function Lower(b: u8): u8 {
    if 65 <= b <= 90 then b + 32 else b
  }

  function LowerAll(t: Text): Text {
    seq(|t|, i requires 0 <= i < |t| => Lower(t[i]))
  }

  /** Equal, or an ASCII capital (65 to 90) and its small letter (97 to 122). */
  predicate SameLetter(a: u8, b: u8) {
    a == b || (65 <= a <= 90 && b == a + 32) || (97 <= a <= 122 && b == a - 32)
  }

  /** Lower-casing makes exactly those bytes equal that are the same letter, and gives no capital. */
  lemma LowerEqual(a: u8, b: u8)
    ensures Lower(a) == Lower(b) <==> SameLetter(a, b)
    ensures SameLetter(a, Lower(a)) && !(65 <= Lower(a) <= 90)
  {
  }

  predicate SameLetters(a: Text, b: Text) {
    |a| == |b| && forall i :: 0 <= i < |a| ==> SameLetter(a[i], b[i])
  }

  lemma LowerAllEqual(a: Text, b: Text)
    ensures LowerAll(a) == LowerAll(b) <==> SameLetters(a, b)
  {
    forall i | 0 <= i < |a| == |b| ensures LowerAll(a)[i] == LowerAll(b)[i] <==> SameLetter(a[i], b[i]) {
      LowerEqual(a[i], b[i]);
    }
  }

  // ---------- What a pattern means ----------

  /** One pattern byte covers one piece of the candidate: any piece for `*` (42), else one byte up to case. */
  predicate Covers(b: u8, piece: Text) {
    b == 42 || (|piece| == 1 && SameLetter(piece[0], b))
  }

  /** `pieces` cuts `candidate` into one piece for each byte of `pattern`. */
  ghost predicate Expansion(pattern: Text, candidate: Text, pieces: seq<Text>) {
    && |pieces| == |pattern|
    && Flatten(pieces) == candidate
    && forall i :: 0 <= i < |pattern| ==> Covers(pattern[i], pieces[i])
  }

  ghost predicate Matches(pattern: Text, candidate: Text) {
    exists pieces: seq<Text> :: Expansion(pattern, candidate, pieces)
  }

  // ---------- The loop ----------

  predicate OnlyStarsFrom(p: Text, i: nat) {
    forall k :: i <= k < |p| ==> p[k] == STAR
  }

  /** The loop variables: `star` is the last star taken, `back` where it last stopped matching. */
  ghost predicate LoopState(p: Text, c: Text, pi: nat, ci: nat, star: Option<nat>, back: nat) {
    && pi <= |p| && ci <= |c|
    && match star
       case None => back == 0
       case Some(s) => s < pi && back <= ci && p[s] == STAR && p[s + 1..pi] == c[back..ci]
  }

  lemma StretchGrows(p: Text, c: Text, pi: nat, ci: nat, star: Option<nat>, back: nat)
    requires LoopState(p, c, pi, ci, star, back)
    requires pi < |p| && ci < |c| && p[pi] == c[ci]
    ensures LoopState(p, c, pi + 1, ci + 1, star, back)
  {
    if star.Some? {
      var s := star.value;
      assert p[s + 1..pi + 1] == p[s + 1..pi] + [p[pi]];
      assert c[back..ci + 1] == c[back..ci] + [c[ci]];
    }
  }

  /** What the loop answers from a given loop head, on lower-cased texts. */
  function LoopResult(p: Text, c: Text, pi: nat, ci: nat, star: Option<nat>, back: nat): bool
    requires LoopState(p, c, pi, ci, star, back)
    decreases |p| - (if star.None? then -1 else star.value), |c| - back, |c| - ci
  {
    if ci == |c| then OnlyStarsFrom(p, pi)
    else if pi < |p| && p[pi] == c[ci] then
      StretchGrows(p, c, pi, ci, star, back);
      LoopResult(p, c, pi + 1, ci + 1, star, back)
    else if pi < |p| && p[pi] == STAR then LoopResult(p, c, pi + 1, ci, Some(pi), ci)
    else if star.Some? then LoopResult(p, c, star.value + 1, back + 1, star, back + 1)
    else false
  }

  /** The answer of `GlobMatches`. */
  predicate Glob(pattern: Text, candidate: Text) {
    LoopResult(LowerAll(pattern), LowerAll(candidate), 0, 0, None, 0)
  }

  /** Main-loop iterations that `back` backtracks over a pattern of `m` bytes can pay for. */
  ghost function Paid(back: nat, m: nat): nat {
    if back == 0 then 0 else Paid(back - 1, m) + m + 1
  }

  lemma {:induction false} PaidGrows(back: nat, upTo: nat, m: nat)
    requires back <= upTo
    ensures Paid(back, m) <= Paid(upTo, m)
    decreases upTo
  {
    if back < upTo {
      PaidGrows(back, upTo - 1, m);
    }
  }

  lemma {:induction false} PaidIsProduct(n: nat, m: nat)
    ensures Paid(n, m) == n * (m + 1)
  {
    if n > 0 {
      PaidIsProduct(n - 1, m);
      assert (n - 1) * (m + 1) + (m + 1) == n * (m + 1);
    }
  }

  /**
   The matcher itself. Besides its answer it reports in `steps` how often the main loop ran:
   at most (m + 1) * (n + 1) times for a pattern of m and a candidate of n bytes.
   */
  method GlobMatches(pattern: Text, candidate: Text) returns (r: bool, ghost steps: nat)
    ensures r == Glob(pattern, candidate)
    ensures r ==> Matches(pattern, candidate)
    ensures StarAtMostLast(candidate) ==> (r <==> Matches(pattern, candidate))
    ensures steps <= (|pattern| + 1) * (|candidate| + 1)
  {
    r, steps := MatchLoop(LowerAll(pattern), LowerAll(candidate));
    GlobMeaning(pattern, candidate);
  }

  method MatchLoop(p: Text, c: Text) returns (r: bool, ghost steps: nat)
    ensures r == LoopResult(p, c, 0, 0, None, 0)
    ensures steps <= (|p| + 1) * (|c| + 1)
  {
    var pi: nat, ci: nat, back: nat := 0, 0, 0;
    var star: Option<nat> := None;
    steps := 0;
    while ci < |c|
      invariant OnTrack(p, c, pi, ci, star, back, steps)
      decreases |p| - (if star.None? then -1 else star.value), |c| - back, |c| - ci
    {
      steps := steps + 1;
      if pi < |p| && p[pi] == c[ci] {
        EatsByte(p, c, pi, ci, star, back, steps);
        pi, ci := pi + 1, ci + 1;
      } else if pi < |p| && p[pi] == STAR {
        TakesStar(p, c, pi, ci, star, back, steps);
        star, pi, back := Some(pi), pi + 1, ci;
      } else if star.Some? {
        GoesBack(p, c, pi, ci, star, back, steps);
        pi, back := star.value + 1, back + 1;
        ci := back;
      } else {
        StepBound(|p|, |c|, pi, back);
        return false, steps;
      }
    }
    StepBound(|p|, |c|, pi, back);
    r := SkipStars(p, pi);
  }

  /** The loop head stands for the whole answer, and its iterations so far are paid for. */
  ghost predicate OnTrack(p: Text, c: Text, pi: nat, ci: nat, star: Option<nat>, back: nat, steps: nat) {
    && LoopState(p, c, pi, ci, star, back)
    && LoopResult(p, c, pi, ci, star, back) == LoopResult(p, c, 0, 0, None, 0)
    && back <= ci && steps <= pi + Paid(back, |p|)
  }

  lemma EatsByte(p: Text, c: Text, pi: nat, ci: nat, star: Option<nat>, back: nat, steps: nat)
    requires steps > 0 && OnTrack(p, c, pi, ci, star, back, steps - 1)
    requires pi < |p| && ci < |c| && p[pi] == c[ci]
    ensures OnTrack(p, c, pi + 1, ci + 1, star, back, steps)
  {
    StretchGrows(p, c, pi, ci, star, back);
  }

  lemma TakesStar(p: Text, c: Text, pi: nat, ci: nat, star: Option<nat>, back: nat, steps: nat)
    requires steps > 0 && OnTrack(p, c, pi, ci, star, back, steps - 1)
    requires pi < |p| && ci < |c| && p[pi] != c[ci] && p[pi] == STAR
    ensures OnTrack(p, c, pi + 1, ci, Some(pi), ci, steps)
    ensures star.Some? ==> star.value < pi
  {
    PaidGrows(back, ci, |p|);
  }

  lemma GoesBack(p: Text, c: Text, pi: nat, ci: nat, star: Option<nat>, back: nat, steps: nat)
    requires steps > 0 && OnTrack(p, c, pi, ci, star, back, steps - 1) && star.Some? && ci < |c|
    requires pi < |p| ==> p[pi] != c[ci] && p[pi] != STAR
    ensures star.value < |p| && OnTrack(p, c, star.value + 1, back + 1, star, back + 1, steps)
  {
  }

  /** The loop over the stars left at the end of the pattern. */
  method SkipStars(p: Text, from: nat) returns (r: bool)
    requires from <= |p|
    ensures r == OnlyStarsFrom(p, from)
  {
    var pi := from;
    while pi < |p| && p[pi] == STAR
      invariant pi <= |p| && OnlyStarsFrom(p, pi) == OnlyStarsFrom(p, from)
    {
      pi := pi + 1;
    }
    r := pi == |p|;
  }

  lemma StepBound(m: nat, n: nat, pi: nat, back: nat)
    requires pi <= m && back <= n
    ensures pi + Paid(back, m) < (m + 1) * (n + 1)
  {
    PaidGrows(back, n, m);
    PaidIsProduct(n, m);
    assert (m + 1) * (n + 1) == n * (m + 1) + (m + 1);
  }

  // ---------- The meaning, by positions ----------

  /** `p[i..]` matches `c[j..]`, both already in lower case. */
  ghost predicate MatchesAt(p: Text, c: Text, i: nat, j: nat)
    requires i <= |p| && j <= |c|
    decreases |p| - i, 0
  {
    if i == |p| then j == |c|
    else if p[i] == STAR then MatchesSomewhere(p, c, i + 1, j)
    else j < |c| && p[i] == c[j] && MatchesAt(p, c, i + 1, j + 1)
  }

  /** `p[i..]`, which follows a star that has reached `j`, matches from `j` or later. */
  ghost predicate MatchesSomewhere(p: Text, c: Text, i: nat, j: nat)
    requires i <= |p| && j <= |c|
    decreases |p| - i, 1
  {
    exists k :: j <= k <= |c| && MatchesAt(p, c, i, k)
  }

  lemma OnlyStarsMatchEnd(p: Text, c: Text, i: nat)
    requires i <= |p|
    ensures MatchesAt(p, c, i, |c|) <==> OnlyStarsFrom(p, i)
    decreases |p| - i
  {
    if i < |p| {
      OnlyStarsMatchEnd(p, c, i + 1);
    }
  }

  lemma OnlyStarsMatchAll(p: Text, c: Text, i: nat, j: nat)
    requires i < |p| && j <= |c| && OnlyStarsFrom(p, i)
    ensures MatchesAt(p, c, i, j)
  {
    OnlyStarsMatchEnd(p, c, i + 1);
  }

  /** A literal stretch, stars included, may be put in front of a match. */
  lemma ExtendLeft(p: Text, c: Text, i: nat, j: nat, n: nat)
    requires i + n <= |p| && j + n <= |c| && p[i..i + n] == c[j..j + n]
    requires MatchesAt(p, c, i + n, j + n)
    ensures MatchesAt(p, c, i, j)
    decreases n
  {
    if n > 0 {
      assert p[i] == p[i..i + n][0] == c[j];
      assert p[i + 1..i + n] == p[i..i + n][1..] == c[j + 1..j + n];
      ExtendLeft(p, c, i + 1, j + 1, n - 1);
    }
  }

  /** A star-free stretch of the pattern can only be matched by itself. */
  lemma StripLiteral(p: Text, c: Text, i: nat, j: nat, n: nat)
    requires i + n <= |p| && j <= |c| && MatchesAt(p, c, i, j)
    requires STAR !in p[i..i + n]
    ensures j + n <= |c| && MatchesAt(p, c, i + n, j + n)
    decreases n
  {
    if n > 0 {
      assert p[i] == p[i..i + n][0];
      assert p[i + 1..i + n] == p[i..i + n][1..];
      StripLiteral(p, c, i + 1, j + 1, n - 1);
    }
  }

  /** The positional form says exactly what the expansion form says. */
  lemma {:induction false} MatchesIsExpansion(pattern: Text, candidate: Text)
    ensures Matches(pattern, candidate) <==>
            MatchesAt(LowerAll(pattern), LowerAll(candidate), 0, 0)
  {
    if Matches(pattern, candidate) {
      var pieces: seq<Text> :| Expansion(pattern, candidate, pieces);
      ExpansionMatchesAt(pattern, candidate, pieces, 0, 0);
    }
    if MatchesAt(LowerAll(pattern), LowerAll(candidate), 0, 0) {
      var pieces := PiecesFrom(pattern, candidate, 0, 0);
      assert Expansion(pattern, candidate, pieces);
    }
  }

  lemma {:induction false} ExpansionMatchesAt(pattern: Text, candidate: Text, pieces: seq<Text>, i: nat, j: nat)
    requires |pieces| == |pattern| && i <= |pattern| && j <= |candidate|
    requires forall k :: 0 <= k < |pattern| ==> Covers(pattern[k], pieces[k])
    requires Flatten(pieces[i..]) == candidate[j..]
    ensures MatchesAt(LowerAll(pattern), LowerAll(candidate), i, j)
    decreases |pattern| - i
  {
    if i < |pattern| {
      var rest := pieces[i..];
      assert rest[0] == pieces[i] && rest[1..] == pieces[i + 1..];
      var k := j + |pieces[i]|;
      assert candidate[j..] == pieces[i] + Flatten(pieces[i + 1..]);
      assert candidate[j..][..|pieces[i]|] == pieces[i];
      assert candidate[j..][|pieces[i]|..] == candidate[k..];
      ExpansionMatchesAt(pattern, candidate, pieces, i + 1, k);
      if pattern[i] != STAR {
        assert candidate[j] == pieces[i][0];
      } else {
        assert LowerAll(pattern)[i] == STAR;
      }
    }
  }

  /** The pieces a positional match cuts the candidate into. */
  ghost function PiecesFrom(pattern: Text, candidate: Text, i: nat, j: nat): (pieces: seq<Text>)
    requires i <= |pattern| && j <= |candidate|
    requires MatchesAt(LowerAll(pattern), LowerAll(candidate), i, j)
    ensures Expansion(pattern[i..], candidate[j..], pieces)
    decreases |pattern| - i
  {
    if i == |pattern| then []
    else
      var p, c := LowerAll(pattern), LowerAll(candidate);
      var next := i + 1;
      assert p[i] == STAR ==> MatchesSomewhere(p, c, next, j);
      var k := if p[i] == STAR then var k :| j <= k <= |c| && MatchesAt(p, c, next, k); k
               else j + 1;
      var rest := PiecesFrom(pattern, candidate, next, k);
      assert candidate[j..] == candidate[j..k] + candidate[k..];
      [candidate[j..k]] + rest
  }

  // ---------- Soundness, for every input ----------

  lemma {:induction false} LoopSound(p: Text, c: Text, pi: nat, ci: nat, star: Option<nat>, back: nat)
    requires LoopState(p, c, pi, ci, star, back)
    requires LoopResult(p, c, pi, ci, star, back)
    ensures star.None? ==> MatchesAt(p, c, pi, ci)
    ensures star.Some? ==> MatchesSomewhere(p, c, star.value + 1, back)
    decreases |p| - (if star.None? then -1 else star.value), |c| - back, |c| - ci
  {
    if ci == |c| {
      OnlyStarsMatchEnd(p, c, pi);
      CloseStretch(p, c, pi, ci, star, back);
    } else if pi < |p| && p[pi] == c[ci] {
      StretchGrows(p, c, pi, ci, star, back);
      LoopSound(p, c, pi + 1, ci + 1, star, back);
      if star.None? {
        assert p[pi..pi + 1] == [p[pi]] == c[ci..ci + 1];
        ExtendLeft(p, c, pi, ci, 1);
      }
    } else if pi < |p| && p[pi] == STAR {
      LoopSound(p, c, pi + 1, ci, Some(pi), ci);
      CloseStretch(p, c, pi, ci, star, back);
    } else {
      LoopSound(p, c, star.value + 1, back + 1, star, back + 1);
    }
  }

  /** A match at the loop head is a match for the star that opened the current stretch. */
  lemma CloseStretch(p: Text, c: Text, pi: nat, ci: nat, star: Option<nat>, back: nat)
    requires LoopState(p, c, pi, ci, star, back) && MatchesAt(p, c, pi, ci)
    ensures star.Some? ==> MatchesSomewhere(p, c, star.value + 1, back)
  {
    if star.Some? {
      ExtendLeft(p, c, star.value + 1, back, ci - back);
    }
  }

  // ---------- Completeness, and where it ends ----------

  /** A `*` occurs in the candidate at its last position only, if at all. */
  predicate StarAtMostLast(c: Text) {
    forall j :: 0 <= j < |c| - 1 ==> c[j] != STAR
  }

  /** No `*` from this place on, but for the last. */
  predicate LateStarsFrom(c: Text, from: nat) {
    forall j :: from <= j < |c| - 1 ==> c[j] != STAR
  }

  /** When the candidate ends in a literal `*`, what is left of a matching pattern is stars. */
  lemma LastStarNeedsStars(p: Text, c: Text, i: nat)
    requires i <= |p| && |c| > 0 && c[|c| - 1] == STAR && MatchesAt(p, c, i, |c| - 1)
    ensures OnlyStarsFrom(p, i)
    decreases |p| - i
  {
    if i < |p| {
      assert p[i] == STAR;
      var k :| |c| - 1 <= k <= |c| && MatchesAt(p, c, i + 1, k);
      if k < |c| {
        LastStarNeedsStars(p, c, i + 1);
      } else {
        OnlyStarsMatchEnd(p, c, i + 1);
      }
    }
  }

  /** Forgetting every star but the last loses no match. */
  lemma OldStarIsRedundant(p: Text, c: Text, pi: nat, ci: nat, star: Option<nat>, back: nat)
    requires LoopState(p, c, pi, ci, star, back) && star.Some? && ci < |c|
    requires STAR !in c[back..ci]
    requires MatchesSomewhere(p, c, star.value + 1, back)
    ensures (exists k :: ci <= k <= |c| && MatchesAt(p, c, pi, k))
    ensures !MatchesAt(p, c, pi, ci) ==> MatchesSomewhere(p, c, star.value + 1, back + 1)
  {
    var s, n := star.value, ci - back;
    var k :| back <= k <= |c| && MatchesAt(p, c, s + 1, k);
    StripLiteral(p, c, s + 1, k, n);
    assert MatchesAt(p, c, pi, k + n);
  }

  /** From a loop state on, the loop finds every match when no `*` lies ahead but at the very end. */
  lemma {:induction false} LoopComplete(p: Text, c: Text, pi: nat, ci: nat, star: Option<nat>, back: nat, from: nat)
    requires LoopState(p, c, pi, ci, star, back) && LateStarsFrom(c, from)
    requires from <= if star.None? then ci else back
    requires star.None? ==> MatchesAt(p, c, pi, ci)
    requires star.Some? && ci < |c| ==> MatchesSomewhere(p, c, star.value + 1, back)
    requires star.Some? && ci == |c| ==> MatchesAt(p, c, pi, ci)
    ensures LoopResult(p, c, pi, ci, star, back)
    decreases |p| - (if star.None? then -1 else star.value), |c| - back, |c| - ci
  {
    if ci == |c| {
      OnlyStarsMatchEnd(p, c, pi);
    } else if pi < |p| && p[pi] == c[ci] {
      StretchGrows(p, c, pi, ci, star, back);
      LiteralKeepsMatch(p, c, pi, ci, star, back, from);
      LoopComplete(p, c, pi + 1, ci + 1, star, back, from);
    } else if pi < |p| && p[pi] == STAR {
      if star.Some? {
        OldStarIsRedundant(p, c, pi, ci, star, back);
        var k :| ci <= k <= |c| && MatchesAt(p, c, pi, k);
        var after := pi + 1;
        assert MatchesSomewhere(p, c, after, k);
        var k' :| k <= k' <= |c| && MatchesAt(p, c, after, k');
        assert MatchesSomewhere(p, c, pi + 1, ci);
      }
      LoopComplete(p, c, pi + 1, ci, Some(pi), ci, from);
    } else {
      assert !MatchesAt(p, c, pi, ci);
      OldStarIsRedundant(p, c, pi, ci, star, back);
      LoopComplete(p, c, star.value + 1, back + 1, star, back + 1, from);
    }
  }

  lemma LiteralKeepsMatch(p: Text, c: Text, pi: nat, ci: nat, star: Option<nat>, back: nat, from: nat)
    requires LoopState(p, c, pi, ci, star, back) && LateStarsFrom(c, from)
    requires from <= if star.None? then ci else back
    requires pi < |p| && ci < |c| && p[pi] == c[ci]
    requires star.None? ==> MatchesAt(p, c, pi, ci)
    requires star.Some? ==> MatchesSomewhere(p, c, star.value + 1, back)
    ensures star.None? || ci + 1 == |c| ==> MatchesAt(p, c, pi + 1, ci + 1)
  {
    if star.None? || ci + 1 == |c| {
      var k := ci;
      if star.Some? {
        OldStarIsRedundant(p, c, pi, ci, star, back);
        k :| ci <= k <= |c| && MatchesAt(p, c, pi, k);
      }
      if k == |c| {
        OnlyStarsMatchEnd(p, c, pi);
        OnlyStarsMatchEnd(p, c, pi + 1);
      } else if p[pi] == STAR {
        LastStarNeedsStars(p, c, pi);
        OnlyStarsMatchEnd(p, c, pi + 1);
      }
    }
  }

  /** What the loop's answer means: always sound, and complete when no `*` occurs too early. */
  lemma {:induction false} GlobMeaning(pattern: Text, candidate: Text)
    ensures Glob(pattern, candidate) ==> Matches(pattern, candidate)
    ensures StarAtMostLast(candidate) ==> (Matches(pattern, candidate) ==> Glob(pattern, candidate))
  {
    var p, c := LowerAll(pattern), LowerAll(candidate);
    MatchesIsExpansion(pattern, candidate);
    if Glob(pattern, candidate) {
      LoopSound(p, c, 0, 0, None, 0);
    }
    if StarAtMostLast(candidate) && Matches(pattern, candidate) {
      LoopComplete(p, c, 0, 0, None, 0, 0);
    }
  }

  /**
   The pattern that is a candidate cut off after a `*` matches the candidate, but the loop eats
   that star as a literal byte, has nothing to come back to, and answers no.
   */
  lemma {:induction false} EarlyStarIsMissed(candidate: Text, j: nat)
    requires j < |candidate| - 1 && candidate[j] == STAR
    ensures Matches(candidate[..j + 1], candidate) && !Glob(candidate[..j + 1], candidate)
  {
    var pattern := candidate[..j + 1];
    var p, c := LowerAll(pattern), LowerAll(candidate);
    OnlyStarsMatchAll(p, c, j, j);
    ExtendLeft(p, c, 0, 0, j);
    MatchesIsExpansion(pattern, candidate);
    LiteralRun(p, c, 0);
  }

  lemma {:induction false} LiteralRun(p: Text, c: Text, i: nat)
    requires i <= |p| < |c| && p == c[..|p|]
    ensures LoopState(p, c, i, i, None, 0) && !LoopResult(p, c, i, i, None, 0)
    decreases |p| - i
  {
    if i < |p| {
      LiteralRun(p, c, i + 1);
    }
  }

  /**
   The exact line: a candidate is judged correctly by every pattern if and only if it has no
   `*` before its last byte. In particular every candidate without `*` is.
   */
  lemma {:induction false} GlobCorrectExactly(candidate: Text)
    ensures (forall pattern :: Glob(pattern, candidate) <==> Matches(pattern, candidate))
            <==> StarAtMostLast(candidate)
  {
    if StarAtMostLast(candidate) {
      forall pattern ensures Glob(pattern, candidate) <==> Matches(pattern, candidate) {
        GlobMeaning(pattern, candidate);
      }
    } else {
      var j :| 0 <= j < |candidate| - 1 && candidate[j] == STAR;
      EarlyStarIsMissed(candidate, j);
    }
  }
}
