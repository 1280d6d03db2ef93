/** The client rules of NFS exports: lists that nodes are added to and removed from. */
module ExportRules {
  import opened AddressRanges
  import opened Basics
  import opened Handles

  datatype Rule = Rule(access: string, noRootSquash: bool, client: string)

  const DEFAULT_RULE := Rule("RW", true, "*")

  type Rules = seq<Rule>
  type Parser = string -> Address

  ghost predicate DistinctClients(rules: Rules) {
    forall i, j :: 0 <= i < j < |rules| ==> rules[i].client != rules[j].client
  }

  /** What the array should keep for every export. */
  ghost predicate Sound(rules: Rules) {
    |rules| > 0 && DistinctClients(rules)
  }

  predicate HasClient(rules: Rules, ip: string) {
    exists k :: 0 <= k < |rules| && rules[k].client == ip
  }

  predicate Covers(parse: Parser, rules: Rules, ip: string) {
    exists k :: 0 <= k < |rules| && (Matches(parse, rules[k].client, ip) || rules[k].client == "*")
  }

  /** The rule for `ip` stands in the list twice or more. */
  ghost predicate Twice(rules: Rules, ip: string) {
    exists i, j :: 0 <= i < j < |rules| && rules[i].client == ip && rules[j].client == ip
  }

  /** The rules for other clients, in order. */
  function Others(rules: Rules, ip: string): Rules {
    if rules == [] then []
    else (if rules[0].client == ip then [] else [rules[0]]) + Others(rules[1..], ip)
  }

  /** How many rules the client has. */
  function Count(rules: Rules, ip: string): nat {
    if rules == [] then 0
    else (if rules[0].client == ip then 1 else 0) + Count(rules[1..], ip)
  }

  function DropAt(rules: Rules, k: nat): Rules
    requires k < |rules|
  {
    rules[..k] + rules[k + 1..]
  }

  /** The index of the last rule for `ip`, or -1. */
  function LastIndex(rules: Rules, ip: string): (k: int)
    ensures -1 <= k < |rules|
    ensures k >= 0 ==> rules[k].client == ip
    ensures forall j :: k < j < |rules| ==> rules[j].client != ip
  {
    if rules == [] then -1
    else if rules[|rules| - 1].client == ip then |rules| - 1
    else LastIndex(rules[..|rules| - 1], ip)
  }

  // ----- one list, one operation -----

  /** AddNodeInExport: a covered address changes nothing. */
  function AddNode(parse: Parser, rules: Rules, access: string, noRootSquash: bool, ip: string): Rules {
    if Covers(parse, rules, ip) then rules else rules + [Rule(access, noRootSquash, ip)]
  }

  /** DeleteNodeFromExport: the last rule for the address goes; a list that would become empty gets the default rule. */
  function DeleteNode(rules: Rules, ip: string): Rules {
    var k := LastIndex(rules, ip);
    if k < 0 then rules
    else if |rules| == 1 then [DEFAULT_RULE]
    else DropAt(rules, k)
  }

  /** cleanupNFSPerms: an export whose only rule is the node's is deleted altogether. */
  function Clean(rules: Rules, ip: string): Option<Rules> {
    var k := LastIndex(rules, ip);
    if k < 0 then Some(rules)
    else if |rules| == 1 then None
    else Some(DropAt(rules, k))
  }

  lemma DropAtRules(rules: Rules, k: nat)
    requires k < |rules|
    ensures forall j :: 0 <= j < |rules| - 1 ==> DropAt(rules, k)[j] == if j < k then rules[j] else rules[j + 1]
    ensures DistinctClients(rules) ==> DistinctClients(DropAt(rules, k)) && !HasClient(DropAt(rules, k), rules[k].client)
  {
    var rules' := DropAt(rules, k);
    forall j | 0 <= j < |rules| - 1 ensures rules'[j] == if j < k then rules[j] else rules[j + 1] {
      if j >= k { assert rules'[j] == rules[k + 1..][j - k]; }
    }
  }

  // ----- what is left of the others -----

  lemma {:induction false} OthersJoin(a: Rules, b: Rules, ip: string)
    ensures Others(a + b, ip) == Others(a, ip) + Others(b, ip)
    decreases |a|
  {
    if a == [] {
      assert a + b == b;
    } else {
      OthersJoin(a[1..], b, ip);
      assert (a + b)[1..] == a[1..] + b;
      var first := if a[0].client == ip then [] else [a[0]];
      assert first + (Others(a[1..], ip) + Others(b, ip)) == first + Others(a[1..], ip) + Others(b, ip);
    }
  }

  lemma {:induction false} CountJoin(a: Rules, b: Rules, ip: string)
    ensures Count(a + b, ip) == Count(a, ip) + Count(b, ip)
    decreases |a|
  {
    if a == [] {
      assert a + b == b;
    } else {
      CountJoin(a[1..], b, ip);
      assert (a + b)[1..] == a[1..] + b;
    }
  }

  lemma {:induction false} CountIff(rules: Rules, ip: string)
    ensures Count(rules, ip) > 0 <==> HasClient(rules, ip)
    ensures Count(rules, ip) == 0 ==> Others(rules, ip) == rules
    ensures |Others(rules, ip)| + Count(rules, ip) == |rules|
    ensures !HasClient(Others(rules, ip), ip)
    decreases |rules|
  {
    if rules != [] {
      CountIff(rules[1..], ip);
      assert rules == [rules[0]] + rules[1..];
      if HasClient(rules[1..], ip) {
        var k :| 0 <= k < |rules[1..]| && rules[1..][k].client == ip;
        assert rules[k + 1].client == ip;
      }
    }
  }

  lemma CountOne(rule: Rule, ip: string)
    ensures Count([rule], ip) == (if rule.client == ip then 1 else 0)
    ensures Others([rule], ip) == if rule.client == ip then [] else [rule]
  {
    assert [rule][1..] == [];
  }

  /** Dropping a rule for the address leaves the rules for the others as they are. */
  lemma DropCounts(rules: Rules, k: nat, ip: string)
    requires k < |rules| && rules[k].client == ip
    ensures Others(DropAt(rules, k), ip) == Others(rules, ip) && Count(DropAt(rules, k), ip) == Count(rules, ip) - 1
  {
    var front, back := rules[..k], rules[k + 1..];
    assert rules == front + ([rules[k]] + back);
    OthersJoin(front, [rules[k]] + back, ip);
    OthersJoin([rules[k]], back, ip);
    OthersJoin(front, back, ip);
    CountJoin(front, [rules[k]] + back, ip);
    CountJoin([rules[k]], back, ip);
    CountJoin(front, back, ip);
    CountOne(rules[k], ip);
  }

  lemma LastIndexIff(rules: Rules, ip: string)
    ensures LastIndex(rules, ip) >= 0 <==> Count(rules, ip) > 0
  {
    CountIff(rules, ip);
  }

  lemma {:induction false} TwiceIff(rules: Rules, ip: string)
    ensures Twice(rules, ip) <==> Count(rules, ip) >= 2
    decreases |rules|
  {
    if rules != [] {
      var rest := rules[1..];
      TwiceIff(rest, ip);
      CountIff(rest, ip);
      assert forall k :: 0 <= k < |rest| ==> rest[k] == rules[k + 1];
      if Twice(rest, ip) {
        var i, j :| 0 <= i < j < |rest| && rest[i].client == ip && rest[j].client == ip;
        assert rules[i + 1].client == ip && rules[j + 1].client == ip;
      }
      if rules[0].client == ip && HasClient(rest, ip) {
        var j :| 0 <= j < |rest| && rest[j].client == ip;
        assert rules[j + 1].client == ip;
      }
      if Twice(rules, ip) {
        var i, j :| 0 <= i < j < |rules| && rules[i].client == ip && rules[j].client == ip;
        assert rest[j - 1].client == ip;
        if i > 0 { assert rest[i - 1].client == ip; }
      }
    }
  }

  /** After an addition the address is covered, nothing covered before is lost, and a second addition changes nothing. */
  lemma AddNodeCovers(parse: Parser, rules: Rules, access: string, noRootSquash: bool, ip: string, other: string)
    requires '-' !in ip
    ensures var rules' := AddNode(parse, rules, access, noRootSquash, ip);
            Covers(parse, rules', ip) &&
            (Covers(parse, rules, other) ==> Covers(parse, rules', other)) &&
            (forall access', squash' :: AddNode(parse, rules', access', squash', ip) == rules')
  {
    var rules' := AddNode(parse, rules, access, noRootSquash, ip);
    if !Covers(parse, rules, ip) {
      assert rules'[|rules|].client == ip;
      assert Matches(parse, rules'[|rules|].client, ip);
    }
    if Covers(parse, rules, other) {
      var k :| 0 <= k < |rules| && (Matches(parse, rules[k].client, other) || rules[k].client == "*");
      assert rules'[k] == rules[k];
    }
  }

  /** The rule is for everybody, for that very address, or for a range that contains it. */
  ghost predicate IsFor(parse: Parser, client: string, ip: string) {
    client == "*" || ('-' !in client && client == ip) ||
    exists low, high, rest :: IsRange(client, low, high, rest) && Within(parse(low), parse(high), parse(ip))
  }

  lemma MatchesIff(parse: Parser, client: string, ip: string)
    requires forall text :: IsParsed(parse(text))
    ensures Matches(parse, client, ip) || client == "*" <==> IsFor(parse, client, ip)
  {
    if '-' in client {
      var low, high, rest := RangeOfAnyText(parse, client, ip);
    }
    forall low, high, rest | IsRange(client, low, high, rest)
      ensures '-' in client && (Matches(parse, client, ip) <==> Within(parse(low), parse(high), parse(ip)))
    {
      RangeSplits(client, low, high, rest);
      RangeOfParts(parse, client, low, high, rest, ip);
    }
  }

  /** An addition leaves the list alone exactly if some rule in it is for the address already, and otherwise puts the new rule
      at its end. */
  lemma AddNodeIdleIff(parse: Parser, rules: Rules, access: string, noRootSquash: bool, ip: string)
    requires forall text :: IsParsed(parse(text))
    ensures var rules' := AddNode(parse, rules, access, noRootSquash, ip);
            (rules' == rules <==> exists k :: 0 <= k < |rules| && IsFor(parse, rules[k].client, ip)) &&
            (rules' != rules ==> rules' == rules + [Rule(access, noRootSquash, ip)])
  {
    hide Matches, IsFor;
    forall k | 0 <= k < |rules|
      ensures Matches(parse, rules[k].client, ip) || rules[k].client == "*" <==> IsFor(parse, rules[k].client, ip)
    {
      MatchesIff(parse, rules[k].client, ip);
    }
  }

  /** Exactly when the address is covered after an addition: always, unless the text itself reads as a range
      that does not contain it. */
  lemma AddNodeCoversIff(parse: Parser, rules: Rules, access: string, noRootSquash: bool, ip: string)
    ensures Covers(parse, AddNode(parse, rules, access, noRootSquash, ip), ip) <==>
            Covers(parse, rules, ip) || '-' !in ip || Matches(parse, ip, ip)
  {
    var rules' := AddNode(parse, rules, access, noRootSquash, ip);
    if !Covers(parse, rules, ip) {
      assert rules'[|rules|].client == ip;
      assert forall k :: 0 <= k < |rules| ==> rules'[k] == rules[k];
    }
  }

  /** An addition keeps the list free of repetitions exactly if the address was covered or had no rule; for an address that
      does not read as a range that is always so. */
  lemma AddNodeSound(parse: Parser, rules: Rules, access: string, noRootSquash: bool, ip: string)
    requires Sound(rules)
    ensures Sound(AddNode(parse, rules, access, noRootSquash, ip)) <==> Covers(parse, rules, ip) || !HasClient(rules, ip)
    ensures '-' !in ip ==> Sound(AddNode(parse, rules, access, noRootSquash, ip))
  {
    var rules' := AddNode(parse, rules, access, noRootSquash, ip);
    if !Covers(parse, rules, ip) {
      assert forall k :: 0 <= k < |rules| ==> !Matches(parse, rules[k].client, ip);
      if HasClient(rules, ip) {
        var k :| 0 <= k < |rules| && rules[k].client == ip;
        assert rules'[k].client == rules'[|rules|].client;
      }
    }
  }

  /** A list whose clients are distinct stays so, and without rule for the address, when its rules are dropped. */
  lemma OthersDistinct(rules: Rules, ip: string)
    requires DistinctClients(rules)
    ensures DistinctClients(Others(rules, ip)) && Count(rules, ip) <= 1
  {
    TwiceIff(rules, ip);
    var k := LastIndex(rules, ip);
    LastIndexIff(rules, ip);
    if k < 0 {
      CountIff(rules, ip);
    } else {
      DropCounts(rules, k, ip);
      CountIff(DropAt(rules, k), ip);
      DropAtRules(rules, k);
    }
  }

  /** On a list without repetitions the deletion leaves exactly the rules for the other clients, unchanged and in order, or the
      default rule when there are none; the result has no repetitions either. */
  lemma DeleteNodeSound(rules: Rules, ip: string)
    requires Sound(rules)
    ensures Sound(DeleteNode(rules, ip))
    ensures DeleteNode(rules, ip) == if Others(rules, ip) == [] then [Rule("RW", true, "*")] else Others(rules, ip)
  {
    var k := LastIndex(rules, ip);
    OthersDistinct(rules, ip);
    CountIff(rules, ip);
    if k >= 0 {
      DropCounts(rules, k, ip);
      CountIff(DropAt(rules, k), ip);
    }
  }

  /** The cleanup leaves exactly the rules for the other clients, unchanged and in order, and deletes the export when
      there are none. */
  lemma CleanSound(rules: Rules, ip: string)
    requires Sound(rules)
    ensures Clean(rules, ip) == if Others(rules, ip) == [] then None else Some(Others(rules, ip))
    ensures Clean(rules, ip).Some? ==> Sound(Clean(rules, ip).value)
  {
    DeleteNodeSound(rules, ip);
    OthersDistinct(rules, ip);
    CountIff(rules, ip);
  }

  // ----- runs on one export -----

  datatype Step =
    | AddStep(access: string, noRootSquash: bool, ip: string)
    | DeleteStep(ip: string)
    | CleanStep(ip: string)

  /** A step whose update the array did not answer leaves the list as it is. */
  function Next(parse: Parser, rules: Rules, step: Step, answered: bool): Option<Rules> {
    if !answered then Some(rules)
    else match step
      case AddStep(access, squash, ip) => Some(AddNode(parse, rules, access, squash, ip))
      case DeleteStep(ip) => Some(DeleteNode(rules, ip))
      case CleanStep(ip) => Clean(rules, ip)
  }

  function Run(parse: Parser, rules: Option<Rules>, steps: seq<(Step, bool)>): Option<Rules>
    decreases |steps|
  {
    if steps == [] || rules.None? then rules
    else Run(parse, Next(parse, rules.value, steps[0].0, steps[0].1), steps[1..])
  }

  /** Over any run of additions, deletions and cleanups, with any of them unanswered, the list of
      an export that still exists is never empty. */
  lemma {:induction false} RunKeepsRules(parse: Parser, rules: Option<Rules>, steps: seq<(Step, bool)>)
    requires rules.Some? ==> rules.value != []
    ensures Run(parse, rules, steps).Some? ==> Run(parse, rules, steps).value != []
    decreases |steps|
  {
    if steps != [] && rules.Some? {
      RunKeepsRules(parse, Next(parse, rules.value, steps[0].0, steps[0].1), steps[1..]);
    }
  }

  ghost predicate SoundThroughout(parse: Parser, rules: Option<Rules>, steps: seq<(Step, bool)>)
    decreases |steps|
  {
    rules.Some? ==>
      Sound(rules.value) &&
      (steps != [] ==> SoundThroughout(parse, Next(parse, rules.value, steps[0].0, steps[0].1), steps[1..]))
  }

  /** No answered addition is for a client that has a rule which does not cover it. */
  ghost predicate NeverRepeats(parse: Parser, rules: Option<Rules>, steps: seq<(Step, bool)>)
    decreases |steps|
  {
    rules.Some? && steps != [] ==>
      var (step, answered) := steps[0];
      (answered && step.AddStep? ==> Covers(parse, rules.value, step.ip) || !HasClient(rules.value, step.ip)) &&
      NeverRepeats(parse, Next(parse, rules.value, step, answered), steps[1..])
  }

  lemma NextSoundIff(parse: Parser, rules: Rules, step: Step, answered: bool)
    requires Sound(rules)
    ensures var rules' := Next(parse, rules, step, answered);
            (rules'.Some? ==> Sound(rules'.value)) <==>
            (answered && step.AddStep? ==> Covers(parse, rules, step.ip) || !HasClient(rules, step.ip))
  {
    match step {
      case AddStep(access, squash, ip) => AddNodeSound(parse, rules, access, squash, ip);
      case DeleteStep(ip) => DeleteNodeSound(rules, ip);
      case CleanStep(ip) => CleanSound(rules, ip);
    }
  }

  /** All along a run the list is not empty and repeats no client exactly if no addition repeats one. */
  lemma {:induction false} RunSoundIff(parse: Parser, rules: Option<Rules>, steps: seq<(Step, bool)>)
    requires rules.Some? ==> Sound(rules.value)
    ensures SoundThroughout(parse, rules, steps) <==> NeverRepeats(parse, rules, steps)
    decreases |steps|
  {
    if steps != [] && rules.Some? {
      var rules' := Next(parse, rules.value, steps[0].0, steps[0].1);
      NextSoundIff(parse, rules.value, steps[0].0, steps[0].1);
      if rules'.Some? ==> Sound(rules'.value) {
        RunSoundIff(parse, rules', steps[1..]);
      }
    }
  }

  /** An address that is added in the usual form, not as a range, is never repeated. */
  lemma {:induction false} RunKeepsSound(parse: Parser, rules: Option<Rules>, steps: seq<(Step, bool)>)
    requires rules.Some? ==> Sound(rules.value)
    requires forall k :: 0 <= k < |steps| && steps[k].0.AddStep? ==> '-' !in steps[k].0.ip
    ensures SoundThroughout(parse, rules, steps)
    decreases |steps|
  {
    if steps != [] && rules.Some? {
      var (step, answered) := steps[0];
      if step.AddStep? { AddNodeSound(parse, rules.value, step.access, step.noRootSquash, step.ip); }
      NextSoundIff(parse, rules.value, step, answered);
      assert forall k :: 0 <= k < |steps[1..]| ==> steps[1..][k] == steps[k + 1];
      RunKeepsSound(parse, Next(parse, rules.value, step, answered), steps[1..]);
    }
  }

  /** The text reads as a range that does not contain it, so adding it again repeats its rule. */
  lemma RangeIsRepeated(rule: Rule)
    requires rule.client == "10.0.0.1" + "-" + "10.0.0.9"
    ensures Sound([rule]) && AddNode(TwoAddresses, [rule], rule.access, rule.noRootSquash, rule.client) == [rule, rule]
  {
    RangeOfParts(TwoAddresses, rule.client, "10.0.0.1", "10.0.0.9", "", rule.client);
    assert |rule.client| == 17;
  }
}
