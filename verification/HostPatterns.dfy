/**
 For which hosts a name pattern of a rule means its wildcard expansion. Two things tell the engine
 from the matcher alone: the pattern `*` is taken for everything before the matcher sees it, and
 patterns that are CIDR blocks never reach it.
 */
module HostPatterns {
  import opened Texts
  import opened Wrappers
  import opened Wildcards
  import opened Acl
  import Decimal

  /** An address parser like the standard library's, which knows no `*`. */
  ghost predicate KnowsNoStar(parse: AddressParser) {
    forall t: Text :: STAR in t ==> parse(t).None?
  }

  /**
   A host whose one early `*` is its first byte and harms no pattern: nothing but one byte follows
   it, or one byte over and over and then a `*`.
   */
  predicate HarmlessHead(host: Text) {
    && |host| >= 2 && host[0] == STAR
    && (|host| == 2
        || (host[|host| - 1] == STAR
            && forall j :: 1 <= j < |host| - 1 ==> host[j] != STAR && SameLetter(host[j], host[1])))
  }

  /** Every name pattern is judged by what it means. */
  ghost predicate JudgedRightly(host: Text, parse: AddressParser) {
    forall pattern: Text :: ParseCidr(pattern, parse).None? ==>
                        (HostMatches(pattern, host, parse) <==> Matches(pattern, host))
  }

  lemma StarIsNoCidr(pattern: Text, parse: AddressParser)
    requires KnowsNoStar(parse) && STAR in pattern
    ensures ParseCidr(pattern, parse).None?
  {
    var slash := IndexOf(pattern, SLASH);
    if slash < |pattern| {
      assert pattern == pattern[..slash] + [SLASH] + pattern[slash + 1..];
      if STAR in pattern[slash + 1..] {
        StarIsNoNumber(pattern[slash + 1..]);
      }
    }
  }

  lemma StarIsNoNumber(t: Text)
    requires STAR in t
    ensures Decimal.Parse(t, 0, 255).None?
  {
    var i :| 0 <= i < |t| && t[i] == STAR;
    if i > 0 {
      assert t[1..][i - 1] == STAR;
    }
  }

  // ---------- Hosts that mislead ----------

  /** A pattern with a star that the matcher judges wrongly. */
  lemma Misjudged(pattern: Text, host: Text, parse: AddressParser)
    requires KnowsNoStar(parse) && |pattern| >= 2 && STAR in pattern
    requires Matches(pattern, host) && !Glob(pattern, host)
    ensures !JudgedRightly(host, parse)
  {
    StarIsNoCidr(pattern, parse);
    assert !HostMatches(pattern, host, parse);
  }

  lemma LaterStarMisleads(host: Text, parse: AddressParser, j: nat)
    requires KnowsNoStar(parse) && 1 <= j < |host| - 1 && host[j] == STAR
    ensures !JudgedRightly(host, parse)
  {
    var pattern := host[..j + 1];
    assert pattern[j] == STAR;
    EarlyStarIsMissed(host, j);
    Misjudged(pattern, host, parse);
  }

  /** The loop on a pattern that starts with a star eaten as a literal, and has no other before it fails. */
  lemma {:induction false} LiteralFails(p: Text, c: Text, i: nat, m: nat)
    requires 1 <= i <= m < |c| && m <= |p| && (forall k :: i <= k < m ==> p[k] != STAR)
    requires m == |p| || (p[m] != c[m] && p[m] != STAR)
    ensures LoopState(p, c, i, i, None, 0) && !LoopResult(p, c, i, i, None, 0)
    decreases m - i
  {
    if i < m && p[i] == c[i] {
      LiteralFails(p, c, i + 1, m);
    }
  }

  lemma FirstStarEaten(p: Text, c: Text)
    requires p != [] && c != [] && p[0] == STAR == c[0]
    ensures LoopState(p, c, 1, 1, None, 0) && LoopResult(p, c, 0, 0, None, 0) == LoopResult(p, c, 1, 1, None, 0)
  {
  }

  /** `*` and a stretch of the candidate that reaches to its end. */
  lemma TailMatches(host: Text, k: nat)
    requires k <= |host|
    ensures Matches([STAR] + host[k..], host)
  {
    var pattern := [STAR] + host[k..];
    var p, c := LowerAll(pattern), LowerAll(host);
    assert forall i :: k <= i < |c| ==> p[i - k + 1] == c[i];
    assert p[1..1 + (|c| - k)] == c[k..k + (|c| - k)];
    ExtendLeft(p, c, 1, k, |c| - k);
    assert MatchesSomewhere(p, c, 1, 0);
    MatchesIsExpansion(pattern, host);
  }

  lemma PlainEndMisleads(host: Text, parse: AddressParser)
    requires KnowsNoStar(parse) && |host| >= 3 && host[0] == STAR != host[|host| - 1]
    ensures !JudgedRightly(host, parse)
  {
    var n := |host|;
    var pattern := [STAR] + host[n - 1..];
    var p, c := LowerAll(pattern), LowerAll(host);
    TailMatches(host, n - 1);
    FirstStarEaten(p, c);
    assert p[1] == c[n - 1] != STAR;
    LiteralFails(p, c, 1, if p[1] == c[1] then 2 else 1);
    Misjudged(pattern, host, parse);
  }

  /** Where a text differs from itself shifted by one byte. */
  lemma {:induction false} FirstChange(c: Text, lo: nat, hi: nat) returns (m: nat)
    requires lo < hi <= |c| && exists j :: lo <= j < hi && c[j] != c[lo]
    ensures lo <= m < hi - 1 && c[m] != c[m + 1]
    decreases hi - lo
  {
    if c[lo] != c[lo + 1] {
      m := lo;
    } else {
      m := FirstChange(c, lo + 1, hi);
    }
  }

  /** The pattern of a star and the host but for two bytes, against a body that changes somewhere. */
  lemma ChangeStopsLoop(p: Text, c: Text)
    requires |c| >= 4 && |p| == |c| - 1 && p[0] == STAR == c[0] && p[1..] == c[2..]
    requires forall j :: 1 <= j < |c| - 1 ==> c[j] != STAR
    requires exists j :: 1 <= j < |c| - 1 && c[j] != c[1]
    ensures !LoopResult(p, c, 0, 0, None, 0)
  {
    var m := FirstChange(c, 1, |c| - 1);
    assert forall k :: 1 <= k < |p| ==> p[k] == p[1..][k - 1] == c[2..][k - 1] == c[k + 1];
    FirstStarEaten(p, c);
    LiteralFails(p, c, 1, m);
  }

  lemma UnevenBodyMisleads(host: Text, parse: AddressParser)
    requires KnowsNoStar(parse) && |host| >= 4 && host[0] == STAR == host[|host| - 1]
    requires forall j :: 1 <= j < |host| - 1 ==> host[j] != STAR
    requires exists j :: 1 <= j < |host| - 1 && !SameLetter(host[j], host[1])
    ensures !JudgedRightly(host, parse)
  {
    var pattern := [STAR] + host[2..];
    var p, c := LowerAll(pattern), LowerAll(host);
    var j :| 1 <= j < |host| - 1 && !SameLetter(host[j], host[1]);
    assert c[j] != c[1];
    TailMatches(host, 2);
    assert p[1..] == c[2..];
    ChangeStopsLoop(p, c);
    assert pattern[0] == STAR;
    Misjudged(pattern, host, parse);
  }

  // ---------- Hosts with a harmless star ----------

  /** What matches from a leading star on matches behind it as well. */
  lemma {:induction false} StepOverStar(p: Text, c: Text, i: nat)
    requires c != [] && c[0] == STAR && i < |p| && MatchesAt(p, c, i, 0)
    ensures MatchesAt(p, c, i, 1)
    decreases |p| - i
  {
    assert p[i] == STAR;
    var k :| 0 <= k <= |c| && MatchesAt(p, c, i + 1, k);
    if k == 0 && i + 1 < |p| {
      StepOverStar(p, c, i + 1);
      k := 1;
    }
    assert MatchesSomewhere(p, c, i + 1, 1);
  }

  /** In a body of one byte over and over, what matches at one place matches one place earlier. */
  lemma {:induction false} StepBack(p: Text, c: Text, i: nat, j: nat)
    requires |c| >= 2 && c[|c| - 1] == STAR && (forall k :: 1 <= k < |c| - 1 ==> c[k] != STAR && c[k] == c[1])
    requires 2 <= j <= |c| && i < |p| && MatchesAt(p, c, i, j)
    ensures MatchesAt(p, c, i, j - 1)
    decreases |p| - i
  {
    if j == |c| {
      OnlyStarsMatchEnd(p, c, i);
      OnlyStarsMatchAll(p, c, i, j - 1);
    } else if p[i] == STAR {
      assert MatchesSomewhere(p, c, i + 1, j);
      assert MatchesSomewhere(p, c, i + 1, j - 1);
    } else {
      StepBack(p, c, i + 1, j + 1);
    }
  }

  lemma {:induction false} BackToFirst(p: Text, c: Text, i: nat, j: nat)
    requires |c| >= 2 && c[|c| - 1] == STAR && (forall k :: 1 <= k < |c| - 1 ==> c[k] != STAR && c[k] == c[1])
    requires 1 <= j <= |c| && i < |p| && MatchesAt(p, c, i, j)
    ensures MatchesAt(p, c, i, 1)
    decreases j
  {
    if j > 1 {
      StepBack(p, c, i, j);
      BackToFirst(p, c, i, j - 1);
    }
  }

  /** Behind a harmless head a match of the whole pattern is one from the second byte on. */
  lemma MatchBehindHead(p: Text, c: Text)
    requires |p| >= 2 && p[0] == STAR && |c| >= 2 && c[0] == STAR && MatchesAt(p, c, 0, 0)
    requires |c| == 2 || (c[|c| - 1] == STAR && forall k :: 1 <= k < |c| - 1 ==> c[k] != STAR && c[k] == c[1])
    ensures MatchesAt(p, c, 1, 1)
  {
    assert MatchesSomewhere(p, c, 1, 0);
    var k :| 0 <= k <= |c| && MatchesAt(p, c, 1, k);
    if k == 0 {
      StepOverStar(p, c, 1);
    } else if |c| == 2 && k == 2 {
      OnlyStarsMatchEnd(p, c, 1);
      OnlyStarsMatchAll(p, c, 1, 1);
    } else if k >= 2 {
      BackToFirst(p, c, 1, k);
    }
  }

  lemma HarmlessIsComplete(pattern: Text, host: Text)
    requires HarmlessHead(host) && pattern != [STAR] && Matches(pattern, host)
    ensures Glob(pattern, host)
  {
    var p, c := LowerAll(pattern), LowerAll(host);
    MatchesIsExpansion(pattern, host);
    assert p != [] && p[0] == STAR;
    assert pattern[0] == STAR;
    assert |p| == 1 ==> pattern == [STAR];
    MatchBehindHead(p, c);
    FirstStarEaten(p, c);
    LoopComplete(p, c, 1, 1, None, 0, 1);
  }

  /** Some host with an early star that is not harmless misleads. */
  lemma OtherStarsMislead(host: Text, parse: AddressParser)
    requires KnowsNoStar(parse) && !StarAtMostLast(host) && !HarmlessHead(host)
    ensures !JudgedRightly(host, parse)
  {
    var n := |host|;
    var j :| 0 <= j < n - 1 && host[j] == STAR;
    if i :| 1 <= i < n - 1 && host[i] == STAR {
      LaterStarMisleads(host, parse, i);
    } else if host[n - 1] != STAR {
      PlainEndMisleads(host, parse);
    } else {
      UnevenBodyMisleads(host, parse);
    }
  }

  /**
   The exact line for the engine: all name patterns mean their expansion for a host if and only if
   it has no `*` before its last byte, or only the harmless one at its head.
   */
  lemma {:induction false} HostsJudgedExactly(host: Text, parse: AddressParser)
    requires KnowsNoStar(parse)
    ensures JudgedRightly(host, parse) <==> StarAtMostLast(host) || HarmlessHead(host)
  {
    if StarAtMostLast(host) || HarmlessHead(host) {
      forall pattern: Text | ParseCidr(pattern, parse).None?
        ensures HostMatches(pattern, host, parse) <==> Matches(pattern, host)
      {
        NamePatternMeaning(pattern, host, parse);
        if HarmlessHead(host) && pattern != [STAR] && Matches(pattern, host) {
          HarmlessIsComplete(pattern, host);
        }
        if pattern == [STAR] {
          StarMatchesAll(host);
        }
      }
    } else {
      OtherStarsMislead(host, parse);
    }
  }

  lemma StarMatchesAll(host: Text)
    ensures Matches([STAR], host)
  {
    TailMatches(host, |host|);
    assert [STAR] + host[|host|..] == [STAR];
  }
}
