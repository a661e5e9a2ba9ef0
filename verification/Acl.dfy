/** The ACL engine: which rule matches a request, which matching rule decides, and sorting. */
module Acl {
  import opened Bytes
  import opened Texts
  import opened Wrappers
  import opened Wildcards
  import opened CidrBlocks
  import Decimal

  datatype AclDecision = Allow | Deny

  datatype AclRule = AclRule(
    id: int,
    priority: int,
    userId: Option<int>,
    groupId: Option<int>,
    targetHost: Option<Text>,
    targetPort: Option<int>,
    action: Text)

  datatype Request = Request(userId: int, groupIds: seq<int>, host: Text, port: u16)

  type Address = a: IpAddr | a.Valid() witness ZeroAddress()

  function ZeroAddress(): (a: IpAddr)
    ensures a.Valid()
  {
    Pow2Positive(V4_BITS);
    V4(0)
  }

  /** The standard library's address parser. */
  type AddressParser = Text -> Option<Address>

  const SLASH: u8 := 47

  function ParseCidr(pattern: Text, parse: AddressParser): (r: Option<Cidr>)
    ensures r.Some? ==> r.value.Valid()
  {
    var slash := IndexOf(pattern, SLASH);
    if slash == |pattern| then None
    else
      match (parse(pattern[..slash]), Decimal.Parse(pattern[slash + 1..], 0, 255))
      case (Some(network), Some(prefix)) =>
        if prefix > network.Width() then None else Some(Cidr.Cidr(network, prefix))
      case _ => None
  }

  lemma CidrOfParts(a: Text, b: Text, parse: AddressParser, c: Cidr)
    requires SLASH !in a
    ensures ParseCidr(a + [SLASH] + b, parse) == Some(c) <==>
            parse(a) == Some(c.network) && Decimal.Parse(b, 0, 255) == Some(c.prefix) && c.prefix <= c.network.Width()
  {
    FirstAfter(a, SLASH, b);
  }

  /** A pattern is a block exactly if it is an address, a slash (47), and a number of bits its family has. */
  lemma {:induction false} CidrParsesExactly(pattern: Text, parse: AddressParser, c: Cidr)
    ensures ParseCidr(pattern, parse) == Some(c) <==>
            exists a: Text, b: Text {:trigger a + [47] + b} ::
              && pattern == a + [47] + b && 47 !in a && parse(a) == Some(c.network)
              && Decimal.Parse(b, 0, 255) == Some(c.prefix) && c.prefix <= if c.network.V4? then 32 else 128
  {
    var slash := IndexOf(pattern, SLASH);
    if slash < |pattern| {
      var x, y := pattern[..slash], pattern[slash + 1..];
      assert pattern == x + [SLASH] + y;
      CidrOfParts(x, y, parse, c);
    }
    forall a: Text, b: Text | pattern == a + [SLASH] + b && SLASH !in a
      ensures slash == |a| && pattern[..slash] == a && pattern[slash + 1..] == b && slash < |pattern|
    {
      FirstAfter(a, SLASH, b);
    }
  }

  predicate HostMatches(pattern: Text, host: Text, parse: AddressParser) {
    if pattern == [STAR] then true
    else
      match ParseCidr(pattern, parse)
      case Some(cidr) => (match parse(host) case Some(ip) => cidr.Contains(ip) case None => false)
      case None => Glob(pattern, host)
  }

  predicate RuleMatches(rule: AclRule, req: Request, parse: AddressParser) {
    && (rule.userId.Some? ==> rule.userId.value == req.userId)
    && (rule.groupId.Some? ==> rule.groupId.value in req.groupIds)
    && (rule.targetHost.Some? ==> HostMatches(rule.targetHost.value, req.host, parse))
    && (rule.targetPort.Some? ==> rule.targetPort.value == req.port)
  }

  const ALLOW: Text := [97, 108, 108, 111, 119]

  function RuleAction(rule: AclRule): AclDecision {
    if LowerAll(rule.action) == ALLOW then Allow else Deny
  }

  /** One step of `max_by_key`: of two equal keys the later one is kept. */
  function KeepMax(best: Option<AclRule>, rule: AclRule): Option<AclRule> {
    if best.Some? && best.value.priority > rule.priority then best else Some(rule)
  }

  /** The matching rule of greatest priority, as the filtered iterator finds it. */
  function Best(rules: seq<AclRule>, req: Request, parse: AddressParser): Option<AclRule> {
    if rules == [] then None
    else
      var n := |rules| - 1;
      var best := Best(rules[..n], req, parse);
      if RuleMatches(rules[n], req, parse) then KeepMax(best, rules[n]) else best
  }

  function EvaluateAcl(rules: seq<AclRule>, req: Request, parse: AddressParser): AclDecision {
    match Best(rules, req, parse)
    case Some(rule) => RuleAction(rule)
    case None => Deny
  }

  // ---------- Who decides ----------

  /** Rule `i` matches, none matching is higher, and none of its priority comes later. */
  ghost predicate IsWinner(rules: seq<AclRule>, req: Request, parse: AddressParser, i: nat) {
    && i < |rules| && RuleMatches(rules[i], req, parse)
    && forall j :: 0 <= j < |rules| && RuleMatches(rules[j], req, parse) ==>
                   rules[j].priority < rules[i].priority || (rules[j].priority == rules[i].priority && j <= i)
  }

  lemma {:induction false} BestIsWinner(rules: seq<AclRule>, req: Request, parse: AddressParser) returns (i: nat)
    ensures Best(rules, req, parse).Some? ==>
              IsWinner(rules, req, parse, i) && Best(rules, req, parse) == Some(rules[i])
    ensures Best(rules, req, parse).None? ==>
              forall j :: 0 <= j < |rules| ==> !RuleMatches(rules[j], req, parse)
  {
    i := 0;
    if rules != [] {
      var n := |rules| - 1;
      i := BestIsWinner(rules[..n], req, parse);
      if RuleMatches(rules[n], req, parse) && Best(rules, req, parse) == Some(rules[n]) {
        i := n;
      }
    }
  }

  /** The decision is the action of the last highest-priority matching rule, or deny without one. */
  lemma {:induction false} LastHighestDecides(rules: seq<AclRule>, req: Request, parse: AddressParser)
    ensures forall i: nat :: IsWinner(rules, req, parse, i) ==>
                        EvaluateAcl(rules, req, parse) == RuleAction(rules[i])
    ensures (forall j :: 0 <= j < |rules| ==> !RuleMatches(rules[j], req, parse)) ==>
              EvaluateAcl(rules, req, parse) == Deny
    ensures (exists j :: 0 <= j < |rules| && RuleMatches(rules[j], req, parse)) ==>
              exists i: nat :: IsWinner(rules, req, parse, i)
  {
    var w := BestIsWinner(rules, req, parse);
  }

  // ---------- Who is allowed ----------

  /** What a rule asks of a request, field by field; a field that is not set asks for nothing. */
  ghost predicate Meets(rule: AclRule, req: Request, parse: AddressParser) {
    && (rule.userId == None || rule.userId == Some(req.userId))
    && (rule.groupId == None || exists i :: 0 <= i < |req.groupIds| && rule.groupId == Some(req.groupIds[i]))
    && (match rule.targetHost case None => true case Some(pattern) => HostMatches(pattern, req.host, parse))
    && (rule.targetPort == None || rule.targetPort == Some(req.port))
  }

  /** The action is the five letters of "allow", capitals or small. */
  predicate SpellsAllow(action: Text) {
    SameLetters(action, [97, 108, 108, 111, 119])
  }

  /** The last rule of highest priority among those the request meets spells "allow". */
  ghost predicate Allowed(rules: seq<AclRule>, req: Request, parse: AddressParser) {
    exists i :: 0 <= i < |rules| && Meets(rules[i], req, parse) && SpellsAllow(rules[i].action)
                && forall j :: 0 <= j < |rules| && Meets(rules[j], req, parse) ==>
                     rules[j].priority < rules[i].priority || (rules[j].priority == rules[i].priority && j <= i)
  }

  lemma MeetsMatches(rule: AclRule, req: Request, parse: AddressParser)
    ensures RuleMatches(rule, req, parse) <==> Meets(rule, req, parse)
  {
  }

  lemma AllowSpelled(rule: AclRule)
    ensures RuleAction(rule) == Allow <==> SpellsAllow(rule.action)
  {
    LowerAllEqual(rule.action, ALLOW);
    assert LowerAll(ALLOW) == ALLOW;
  }

  /** Over all rule lists and requests: access is allowed exactly by a rule that is met, decides and spells "allow". */
  lemma {:induction false} AllowedExactly(rules: seq<AclRule>, req: Request, parse: AddressParser)
    ensures EvaluateAcl(rules, req, parse) == Allow <==> Allowed(rules, req, parse)
  {
    var w := BestIsWinner(rules, req, parse);
    forall i | 0 <= i < |rules| ensures RuleMatches(rules[i], req, parse) <==> Meets(rules[i], req, parse) {
      MeetsMatches(rules[i], req, parse);
    }
    if Best(rules, req, parse).Some? {
      AllowSpelled(rules[w]);
    }
  }

  // ---------- One rule more or less ----------

  /** Some rule that also matches takes precedence over `r` standing between `before` and `after`. */
  ghost predicate Beaten(before: seq<AclRule>, r: AclRule, after: seq<AclRule>, req: Request, parse: AddressParser) {
    || (exists i :: 0 <= i < |before| && RuleMatches(before[i], req, parse) && before[i].priority > r.priority)
    || (exists i :: 0 <= i < |after| && RuleMatches(after[i], req, parse) && after[i].priority >= r.priority)
  }

  lemma BestSnoc(rules: seq<AclRule>, r: AclRule, req: Request, parse: AddressParser)
    ensures Best(rules + [r], req, parse) ==
            if RuleMatches(r, req, parse) then KeepMax(Best(rules, req, parse), r) else Best(rules, req, parse)
  {
    assert (rules + [r])[..|rules|] == rules;
  }

  lemma BeatenSnoc(before: seq<AclRule>, r: AclRule, after: seq<AclRule>, x: AclRule, req: Request, parse: AddressParser)
    ensures Beaten(before, r, after + [x], req, parse) <==>
            Beaten(before, r, after, req, parse) || (RuleMatches(x, req, parse) && x.priority >= r.priority)
  {
    var longer := after + [x];
    assert longer[|after|] == x && forall i :: 0 <= i < |after| ==> longer[i] == after[i];
  }

  lemma RuleAtEnd(before: seq<AclRule>, r: AclRule, req: Request, parse: AddressParser)
    ensures Best(before + [r], req, parse) ==
            if RuleMatches(r, req, parse) && !Beaten(before, r, [], req, parse) then Some(r)
            else Best(before, req, parse)
  {
    BestSnoc(before, r, req, parse);
    var i := BestIsWinner(before, req, parse);
  }

  /** Exactly the unbeaten matching rule decides; any other may come or go without effect. */
  lemma {:induction false} OneRuleMore(before: seq<AclRule>, r: AclRule, after: seq<AclRule>, req: Request, parse: AddressParser)
    ensures Best(before + [r] + after, req, parse) ==
            if RuleMatches(r, req, parse) && !Beaten(before, r, after, req, parse) then Some(r)
            else Best(before + after, req, parse)
    decreases |after|
  {
    if after == [] {
      assert before + [r] + after == before + [r] && before + after == before;
      RuleAtEnd(before, r, req, parse);
    } else {
      var front, x := after[..|after| - 1], after[|after| - 1];
      assert after == front + [x];
      Associate(before + [r], front, [x]);
      Associate(before, front, [x]);
      OneRuleMore(before, r, front, req, parse);
      BestSnoc(before + [r] + front, x, req, parse);
      BestSnoc(before + front, x, req, parse);
      BeatenSnoc(before, r, front, x, req, parse);
      RuleThenOneMore(before, r, front, x, req, parse);
    }
  }

  /** A later match takes over from `r` exactly if it is as high, and from what `r` beats all the more. */
  lemma RuleThenOneMore(before: seq<AclRule>, r: AclRule, front: seq<AclRule>, x: AclRule, req: Request, parse: AddressParser)
    ensures !Beaten(before, r, front, req, parse) && x.priority >= r.priority ==>
              KeepMax(Best(before + front, req, parse), x) == Some(x)
    ensures Beaten(before, r, front, req, parse) && RuleMatches(r, req, parse) ==> Best(before + front, req, parse).Some?
  {
    if !Beaten(before, r, front, req, parse) {
      UnbeatenBound(before, r, front, req, parse);
    } else {
      var i := BestIsWinner(before + front, req, parse);
      if j :| 0 <= j < |before| && RuleMatches(before[j], req, parse) {
        assert (before + front)[j] == before[j];
      } else {
        var j :| 0 <= j < |front| && RuleMatches(front[j], req, parse);
        assert (before + front)[|before| + j] == front[j];
      }
    }
  }

  lemma UnbeatenBound(before: seq<AclRule>, r: AclRule, after: seq<AclRule>, req: Request, parse: AddressParser)
    requires !Beaten(before, r, after, req, parse)
    ensures var b := Best(before + after, req, parse); b.Some? ==> b.value.priority <= r.priority
  {
    var i := BestIsWinner(before + after, req, parse);
    if i < |before| {
    } else if i < |before + after| {
      assert (before + after)[i] == after[i - |before|];
    }
  }

  // ---------- Sorting keeps the decision ----------

  function WithPriority(rules: seq<AclRule>, p: int): seq<AclRule> {
    if rules == [] then []
    else
      var n := |rules| - 1;
      WithPriority(rules[..n], p) + (if rules[n].priority == p then [rules[n]] else [])
  }

  predicate Descending(rules: seq<AclRule>) {
    forall i, j :: 0 <= i < j < |rules| ==> rules[i].priority >= rules[j].priority
  }

  /** Sorted by falling priority, rules of one priority staying in their order. */
  ghost predicate IsStableSortOf(sorted: seq<AclRule>, rules: seq<AclRule>) {
    Descending(sorted) && forall p :: WithPriority(sorted, p) == WithPriority(rules, p)
  }

  function Place(sorted: seq<AclRule>, r: AclRule): seq<AclRule> {
    if sorted == [] || sorted[|sorted| - 1].priority >= r.priority then sorted + [r]
    else Place(sorted[..|sorted| - 1], r) + [sorted[|sorted| - 1]]
  }

  /** A stable sort; nothing below depends on which one. */
  function SortedRules(rules: seq<AclRule>): seq<AclRule> {
    if rules == [] then []
    else Place(SortedRules(rules[..|rules| - 1]), rules[|rules| - 1])
  }

  lemma DescendsSnoc(front: seq<AclRule>, last: AclRule)
    requires Descending(front) && forall x :: x in front ==> x.priority >= last.priority
    ensures Descending(front + [last])
  {
  }

  lemma LastIsLeast(sorted: seq<AclRule>)
    requires Descending(sorted) && sorted != []
    ensures Descending(sorted[..|sorted| - 1])
    ensures forall x :: x in sorted ==> x.priority >= sorted[|sorted| - 1].priority
  {
  }

  lemma {:induction false} PlaceHolds(sorted: seq<AclRule>, r: AclRule)
    ensures forall x :: x in Place(sorted, r) ==> x in sorted || x == r
  {
    if sorted != [] && sorted[|sorted| - 1].priority < r.priority {
      PlaceHolds(sorted[..|sorted| - 1], r);
    }
  }

  lemma {:induction false} PlaceDescends(sorted: seq<AclRule>, r: AclRule)
    requires Descending(sorted)
    ensures Descending(Place(sorted, r))
  {
    if sorted != [] {
      LastIsLeast(sorted);
    }
    if sorted != [] && sorted[|sorted| - 1].priority < r.priority {
      var front := sorted[..|sorted| - 1];
      PlaceDescends(front, r);
      PlaceHolds(front, r);
      DescendsSnoc(Place(front, r), sorted[|sorted| - 1]);
    } else {
      DescendsSnoc(sorted, r);
    }
  }

  lemma WithPrioritySnoc(rules: seq<AclRule>, r: AclRule, p: int)
    ensures WithPriority(rules + [r], p) == WithPriority(rules, p) + (if r.priority == p then [r] else [])
  {
    assert (rules + [r])[..|rules|] == rules;
  }

  /** A rule placed before one of lower priority goes with its own priority's rules all the same. */
  lemma Swap(kept: seq<AclRule>, r: AclRule, last: AclRule, p: int)
    requires last.priority < r.priority
    ensures kept + (if r.priority == p then [r] else []) + (if last.priority == p then [last] else [])
            == kept + (if last.priority == p then [last] else []) + (if r.priority == p then [r] else [])
  {
  }

  lemma {:induction false} PlaceKeepsOrder(sorted: seq<AclRule>, r: AclRule, p: int)
    ensures WithPriority(Place(sorted, r), p) ==
            WithPriority(sorted, p) + (if r.priority == p then [r] else [])
  {
    if sorted == [] || sorted[|sorted| - 1].priority >= r.priority {
      WithPrioritySnoc(sorted, r, p);
    } else {
      var front, last := sorted[..|sorted| - 1], sorted[|sorted| - 1];
      PlaceKeepsOrder(front, r, p);
      WithPrioritySnoc(Place(front, r), last, p);
      Swap(WithPriority(front, p), r, last, p);
    }
  }

  lemma {:induction false} SortIsStable(rules: seq<AclRule>)
    ensures IsStableSortOf(SortedRules(rules), rules)
  {
    if rules != [] {
      var n := |rules| - 1;
      SortIsStable(rules[..n]);
      PlaceDescends(SortedRules(rules[..n]), rules[n]);
      forall p ensures WithPriority(SortedRules(rules), p) == WithPriority(rules, p) {
        PlaceKeepsOrder(SortedRules(rules[..n]), rules[n], p);
      }
    }
  }

  function LastMatching(rules: seq<AclRule>, req: Request, parse: AddressParser): Option<AclRule> {
    if rules == [] then None
    else
      var n := |rules| - 1;
      if RuleMatches(rules[n], req, parse) then Some(rules[n]) else LastMatching(rules[..n], req, parse)
  }

  /** The last match among the rules of one priority. */
  function ClassMatch(rules: seq<AclRule>, p: int, req: Request, parse: AddressParser): Option<AclRule> {
    LastMatching(WithPriority(rules, p), req, parse)
  }

  lemma ClassMatchSnoc(rules: seq<AclRule>, p: int, req: Request, parse: AddressParser)
    requires rules != []
    ensures var last := rules[|rules| - 1];
            ClassMatch(rules, p, req, parse) ==
            if last.priority == p && RuleMatches(last, req, parse) then Some(last)
            else ClassMatch(rules[..|rules| - 1], p, req, parse)
  {
    var rest, last := rules[..|rules| - 1], rules[|rules| - 1];
    var c := WithPriority(rules, p);
    if last.priority == p {
      assert c == WithPriority(rest, p) + [last];
      assert c[..|c| - 1] == WithPriority(rest, p) && c[|c| - 1] == last;
    } else {
      assert c == WithPriority(rest, p);
    }
  }

  /** The winner is the last match of its priority class, all higher classes being without match. */
  lemma {:induction false} BestByClass(rules: seq<AclRule>, req: Request, parse: AddressParser)
    ensures var b := Best(rules, req, parse);
            && (b.Some? ==> ClassMatch(rules, b.value.priority, req, parse) == b)
            && forall p :: (b.Some? ==> p > b.value.priority) ==> ClassMatch(rules, p, req, parse).None?
  {
    if rules != [] {
      BestByClass(rules[..|rules| - 1], req, parse);
      forall p ensures ClassMatch(rules, p, req, parse) ==
                       var last := rules[|rules| - 1];
                       if last.priority == p && RuleMatches(last, req, parse) then Some(last)
                       else ClassMatch(rules[..|rules| - 1], p, req, parse)
      {
        ClassMatchSnoc(rules, p, req, parse);
      }
    }
  }

  /** Any stable sort of the rules decides every request as the unsorted rules do. */
  lemma {:induction false} SortingKeepsDecision(sorted: seq<AclRule>, rules: seq<AclRule>, req: Request, parse: AddressParser)
    requires IsStableSortOf(sorted, rules)
    ensures EvaluateAcl(sorted, req, parse) == EvaluateAcl(rules, req, parse)
  {
    BestByClass(rules, req, parse);
    BestByClass(sorted, req, parse);
    assert forall p :: ClassMatch(sorted, p, req, parse) == ClassMatch(rules, p, req, parse);
    assert Best(sorted, req, parse) == Best(rules, req, parse);
  }

  // ---------- What a host pattern means ----------

  /** A pattern that is no CIDR block means its wildcard expansion, for hosts without an early `*`. */
  lemma {:induction false} NamePatternMeaning(pattern: Text, host: Text, parse: AddressParser)
    requires ParseCidr(pattern, parse).None?
    ensures HostMatches(pattern, host, parse) ==> Matches(pattern, host)
    ensures StarAtMostLast(host) ==> (HostMatches(pattern, host, parse) <==> Matches(pattern, host))
  {
    GlobMeaning(pattern, host);
    if pattern == [STAR] {
      assert Flatten([host]) == host + Flatten([]) == host;
      assert Expansion(pattern, host, [host]);
    }
  }

  /** A CIDR pattern accepts the hosts that are addresses of its family with its leading bits. */
  lemma {:induction false} CidrPatternMeaning(pattern: Text, host: Text, parse: AddressParser)
    requires ParseCidr(pattern, parse).Some?
    ensures var c := ParseCidr(pattern, parse).value;
            HostMatches(pattern, host, parse) <==>
            parse(host).Some? && SameNetwork(c.network, parse(host).value, c.prefix)
  {
    if parse(host).Some? {
      ContainsIsLeadingBits(ParseCidr(pattern, parse).value, parse(host).value);
    }
  }

  // ---------- The engine ----------

  class AclEngine {
    var rules: seq<AclRule>
    ghost var loaded: seq<AclRule>

    ghost predicate Valid()
      reads this
    {
      IsStableSortOf(rules, loaded)
    }

    constructor (rules: seq<AclRule>)
      ensures Valid() && loaded == rules
    {
      SortIsStable(rules);
      this.rules, loaded := SortedRules(rules), rules;
    }

    method Reload(rules: seq<AclRule>)
      modifies this
      ensures Valid() && loaded == rules
    {
      SortIsStable(rules);
      this.rules, loaded := SortedRules(rules), rules;
    }

    /** Decides on the sorted rules what the rules as loaded decide. */
    method CheckAccess(req: Request, parse: AddressParser) returns (decision: AclDecision)
      requires Valid()
      ensures decision == EvaluateAcl(loaded, req, parse)
      ensures decision == Allow <==> Allowed(loaded, req, parse)
    {
      AllowedExactly(loaded, req, parse);
      SortingKeepsDecision(rules, loaded, req, parse);
      decision := EvaluateAcl(rules, req, parse);
    }
  }
}
