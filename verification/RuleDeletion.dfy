/** `DeleteExportRule` on the rules of one export, and what it means for unpublishing a node. */
module RuleDeletion {
  import opened AddressRanges
  import opened ExportRules
  import opened Handles

  /** The array after a removal: the rest moved down, the last element left in place. */
  function Shifted(rules: Rules, k: nat): (r: Rules)
    requires k < |rules|
    ensures |r| == |rules|
  {
    if |rules| == 1 then [DEFAULT_RULE] else DropAt(rules, k) + [rules[|rules| - 1]]
  }

  /** The loop of DeleteExportRule from index `j` on. It reads the array `now` while every deletion shifts it; `stored` is the
      list the export has by then. The loop ends after `limit` deletions at the latest. */
  function Swept(now: Rules, stored: Rules, ip: string, j: nat, limit: nat): Rules
    requires j <= |now|
    decreases |now| - j
  {
    if j == |now| || limit == 0 then stored
    else if now[j].client != ip then Swept(now, stored, ip, j + 1, limit)
    else Swept(Shifted(now, LastIndex(now, ip)), DeleteNode(now, ip), ip, j + 1, limit - 1)
  }

  /** The stored list when the loop stops after `hits` deletions, or ends before that. */
  function StoppedAfter(rules: Rules, ip: string, hits: nat): Rules {
    Swept(rules, rules, ip, 0, hits)
  }

  /** The list DeleteExportRule leaves. */
  function DeleteRule(rules: Rules, ip: string): Rules {
    StoppedAfter(rules, ip, |rules|)
  }

  /** The list without the last `d` rules for the address. */
  function DropLast(rules: Rules, ip: string, d: nat): Rules {
    if d == 0 || LastIndex(rules, ip) < 0 then rules
    else DropLast(DropAt(rules, LastIndex(rules, ip)), ip, d - 1)
  }

  function Copies(rule: Rule, n: nat): Rules {
    if n == 0 then [] else [rule] + Copies(rule, n - 1)
  }

  /** The list after `d` deletions, when its last rule is not for the address: each deletion but the first adds a copy of the last rule. */
  function Halved(now: Rules, stored: Rules, ip: string, d: nat): Rules
    requires now != []
  {
    if d == 0 then stored else DropLast(now, ip, d) + Copies(now[|now| - 1], d - 1)
  }

  function Min(a: nat, b: nat): nat { if a < b then a else b }

  lemma LastIndexSnoc(rules: Rules, z: Rule, ip: string)
    requires z.client != ip
    ensures LastIndex(rules + [z], ip) == LastIndex(rules, ip)
  {
    assert (rules + [z])[..|rules|] == rules;
  }

  lemma DropAtSnoc(rules: Rules, z: Rule, k: nat)
    requires k < |rules|
    ensures DropAt(rules + [z], k) == DropAt(rules, k) + [z]
  {
    assert (rules + [z])[k + 1..] == rules[k + 1..] + [z];
  }

  lemma {:induction false} DropLastSnoc(rules: Rules, z: Rule, ip: string, d: nat)
    requires z.client != ip
    ensures DropLast(rules + [z], ip, d) == DropLast(rules, ip, d) + [z]
    decreases d
  {
    var k := LastIndex(rules, ip);
    LastIndexSnoc(rules, z, ip);
    hide LastIndex, DropAt;
    if d > 0 && k >= 0 {
      DropAtSnoc(rules, z, k);
      DropLastSnoc(DropAt(rules, k), z, ip, d - 1);
    }
  }

  lemma OneMoreCopy(kept: Rules, z: Rule, n: nat)
    ensures kept + Copies(z, n + 1) == kept + [z] + Copies(z, n)
  {
  }

  lemma ShiftedIs(now: Rules, ip: string)
    requires now != [] && now[|now| - 1].client != ip && LastIndex(now, ip) >= 0
    ensures var k := LastIndex(now, ip);
            Shifted(now, k) == DropAt(now, k) + [now[|now| - 1]] && DeleteNode(now, ip) == DropAt(now, k)
  {
  }

  lemma HalvedStep(now: Rules, stored: Rules, ip: string, d: nat)
    requires now != [] && now[|now| - 1].client != ip && LastIndex(now, ip) >= 0 && d > 0
    ensures var now' := Shifted(now, LastIndex(now, ip));
            now'[|now| - 1] == now[|now| - 1] && Halved(now, stored, ip, d) == Halved(now', DeleteNode(now, ip), ip, d - 1)
  {
    hide LastIndex, Copies, DropAt, Shifted, DeleteNode;
    var k, z := LastIndex(now, ip), now[|now| - 1];
    var rest := DropAt(now, k);
    ShiftedIs(now, ip);
    DropLastSnoc(rest, z, ip, d - 1);
    var kept := DropLast(rest, ip, d - 1);
    assert DropLast(now, ip, d) == kept;
    hide DropLast;
    if d > 1 { OneMoreCopy(kept, z, d - 2); } else { NoCopies(now, ip, z); }
  }

  lemma NoCopies(now: Rules, ip: string, z: Rule)
    requires LastIndex(now, ip) >= 0
    ensures DropLast(now, ip, 1) + Copies(z, 0) == DropAt(now, LastIndex(now, ip))
  {
    hide LastIndex, DropAt;
    assert DropLast(DropAt(now, LastIndex(now, ip)), ip, 0) == DropAt(now, LastIndex(now, ip));
  }

  /** What is behind index `j` after the rule at `j` itself was the last one for the address. */
  lemma ShiftHere(now: Rules, ip: string, j: nat)
    requires j < |now| - 1 && LastIndex(now, ip) == j && now[|now| - 1].client != ip
    ensures Count(now[j + 1..], ip) == 0 && Count(Shifted(now, j)[j + 1..], ip) == 0
  {
    hide LastIndex, Count, Others;
    var z, rest, tail := now[|now| - 1], now[j + 1..], now[j + 2..];
    assert Shifted(now, j)[j + 1..] == tail + [z];
    CountIff(rest, ip);
    CountIff(tail, ip);
    CountJoin(tail, [z], ip);
    CountOne(z, ip);
  }

  /** What is behind index `j` after a rule further down was the last one for the address. */
  lemma ShiftLater(now: Rules, ip: string, j: nat, k: nat)
    requires j < k < |now| - 1 && now[k].client == ip && now[|now| - 1].client != ip
    ensures Count(now[j + 1..], ip) >= 1 && Count(Shifted(now, k)[j + 1..], ip) == Count(now[j + 1..], ip) - 1
  {
    hide LastIndex, Count, Others;
    var z, rest, i := now[|now| - 1], now[j + 1..], k - j - 1;
    assert rest[i].client == ip;
    CountIff(rest, ip);
    DropCounts(rest, i, ip);
    assert Shifted(now, k)[j + 1..] == DropAt(rest, i) + [z];
    CountJoin(DropAt(rest, i), [z], ip);
    CountOne(z, ip);
  }

  lemma CountFrom(now: Rules, ip: string, j: nat)
    requires j < |now|
    ensures Count(now[j..], ip) == (if now[j].client == ip then 1 else 0) + Count(now[j + 1..], ip)
  {
    assert now[j..][0] == now[j] && now[j..][1..] == now[j + 1..];
  }

  /** The rules for the address from index `j` on, before and after the deletion at `j`. */
  lemma ShiftCounts(now: Rules, ip: string, j: nat)
    requires j < |now| && now[j].client == ip && now[|now| - 1].client != ip
    ensures var c := Count(now[j..], ip);
            c >= 1 && Count(Shifted(now, LastIndex(now, ip))[j + 1..], ip) == if c >= 2 then c - 2 else 0
  {
    var k := LastIndex(now, ip);
    CountFrom(now, ip, j);
    hide Count;
    if k == j { ShiftHere(now, ip, j); } else { ShiftLater(now, ip, j, k); }
  }

  lemma NoneLeft(now: Rules, stored: Rules, ip: string, j: nat, limit: nat)
    requires j <= |now| && now != [] && (j == |now| || limit == 0)
    ensures Halved(now, stored, ip, Min(limit, (Count(now[j..], ip) + 1) / 2)) == stored
  {
  }

  lemma {:induction false} SweptHalf(now: Rules, stored: Rules, ip: string, j: nat, limit: nat)
    requires j <= |now| && now != [] && now[|now| - 1].client != ip
    ensures Swept(now, stored, ip, j, limit) == Halved(now, stored, ip, Min(limit, (Count(now[j..], ip) + 1) / 2))
    decreases |now| - j
  {
    hide Count, Halved, Shifted, DropAt, LastIndex, DeleteNode;
    if j == |now| || limit == 0 {
      NoneLeft(now, stored, ip, j, limit);
    } else {
      CountFrom(now, ip, j);
      if now[j].client != ip {
        SweptHalf(now, stored, ip, j + 1, limit);
      } else {
        var k := LastIndex(now, ip);
        var now' := Shifted(now, k);
        var c, c' := Count(now[j..], ip), Count(now'[j + 1..], ip);
        ShiftCounts(now, ip, j);
        HalvedStep(now, stored, ip, Min(limit, (c + 1) / 2));
        assert |now'| == |now| && now'[|now| - 1] == now[|now| - 1];
        SweptHalf(now', DeleteNode(now, ip), ip, j + 1, limit - 1);
        assert Min(limit - 1, (c' + 1) / 2) == Min(limit, (c + 1) / 2) - 1;
      }
    }
  }

  /** When the last rule is for the address, it is the one that goes, again and again. */
  lemma {:induction false} SweptEnd(now: Rules, stored: Rules, ip: string, j: nat, limit: nat)
    requires j <= |now| && |now| > 1 && now[|now| - 1].client == ip && (j == |now| ==> stored == now[..|now| - 1])
    requires limit > 0 || stored == now[..|now| - 1]
    ensures Swept(now, stored, ip, j, limit) == now[..|now| - 1]
    decreases |now| - j
  {
    if j < |now| && limit > 0 {
      var n := |now| - 1;
      assert LastIndex(now, ip) == n;
      assert DropAt(now, n) == now[..n];
      assert Shifted(now, n) == now;
      if now[j].client != ip {
        SweptEnd(now, stored, ip, j + 1, limit);
      } else {
        SweptEnd(now, now[..n], ip, j + 1, limit - 1);
      }
    }
  }

  lemma StoppedHalf(rules: Rules, ip: string, hits: nat)
    requires rules != [] && rules[|rules| - 1].client != ip
    ensures StoppedAfter(rules, ip, hits) == Halved(rules, rules, ip, Min(hits, (Count(rules, ip) + 1) / 2))
  {
    hide Count, Swept, Halved;
    assert rules[0..] == rules;
    SweptHalf(rules, rules, ip, 0, hits);
  }

  lemma StoppedEnd(rules: Rules, ip: string, hits: nat)
    requires |rules| > 1 && rules[|rules| - 1].client == ip
    ensures StoppedAfter(rules, ip, hits) == if hits == 0 then rules else rules[..|rules| - 1]
  {
    if hits > 0 { SweptEnd(rules, rules, ip, 0, hits); }
  }

  lemma SweptLone(rule: Rule, ip: string, hits: nat)
    ensures StoppedAfter([rule], ip, hits) == if hits == 0 || rule.client != ip then [rule] else [DEFAULT_RULE]
  {
    var rules, default := [rule], [DEFAULT_RULE];
    if hits > 0 {
      if rule.client == ip {
        assert rules[0].client == ip;
        assert LastIndex(rules, ip) == 0;
        assert Swept(default, default, ip, 1, hits - 1) == default;
      } else {
        assert Swept(rules, rules, ip, 1, hits) == rules;
      }
    }
  }

  /** Exactly what is stored after any number of deletions. With `m` rules for the address the loop makes (m + 1) / 2 of them. A
      lone rule becomes the default rule; a rule for the address at the end is all that goes; otherwise the last ones go,
      and the list is filled up with copies of its last rule to one less than its length. */
  lemma StoppedAfterIs(rules: Rules, ip: string, hits: nat)
    ensures var d := Min(hits, (Count(rules, ip) + 1) / 2);
            StoppedAfter(rules, ip, hits) ==
              if d == 0 then rules
              else if |rules| == 1 then [DEFAULT_RULE]
              else if rules[|rules| - 1].client == ip then rules[..|rules| - 1]
              else DropLast(rules, ip, d) + Copies(rules[|rules| - 1], d - 1)
  {
    hide LastIndex, DropLast, Copies, Others;
    CountIff(rules, ip);
    if |rules| == 1 {
      assert rules == [rules[0]];
      CountOne(rules[0], ip);
      SweptLone(rules[0], ip, hits);
    } else if rules != [] {
      hide Count, Swept;
      if rules[|rules| - 1].client != ip {
        StoppedHalf(rules, ip, hits);
      } else {
        assert HasClient(rules, ip);
        StoppedEnd(rules, ip, hits);
      }
    }
  }

  lemma {:induction false} DropLastCounts(rules: Rules, ip: string, d: nat)
    requires d <= Count(rules, ip)
    ensures Others(DropLast(rules, ip, d), ip) == Others(rules, ip) && Count(DropLast(rules, ip, d), ip) == Count(rules, ip) - d
    decreases d
  {
    hide LastIndex, DropAt;
    if d > 0 {
      var k := LastIndex(rules, ip);
      LastIndexIff(rules, ip);
      DropCounts(rules, k, ip);
      DropLastCounts(DropAt(rules, k), ip, d - 1);
    }
  }

  lemma {:induction false} CopiesCount(z: Rule, n: nat, ip: string)
    requires z.client != ip
    ensures Others(Copies(z, n), ip) == Copies(z, n) && Count(Copies(z, n), ip) == 0
    decreases n
  {
    if n > 0 {
      CopiesCount(z, n - 1, ip);
      assert Copies(z, n)[1..] == Copies(z, n - 1);
    }
  }

  /** What DeleteExportRule leaves of a list of two or more: the rules for the others are all kept in order, but the
      last one may be repeated; of `m` rules for the address m - 1 stay when one of them is last, and m / 2 otherwise. */
  lemma DeleteRuleLeaves(rules: Rules, ip: string)
    requires |rules| > 1 && Count(rules, ip) > 0
    ensures var after, m, z := DeleteRule(rules, ip), Count(rules, ip), rules[|rules| - 1];
            if z.client == ip then Count(after, ip) == m - 1 && Others(after, ip) == Others(rules, ip)
            else Count(after, ip) == m / 2 && Others(after, ip) == Others(rules, ip) + Copies(z, (m - 1) / 2)
  {
    hide LastIndex, DropLast, Count, Others, StoppedAfter, Copies;
    var n, m := |rules| - 1, Count(rules, ip);
    var z, d := rules[n], (m + 1) / 2;
    CountIff(rules, ip);
    StoppedAfterIs(rules, ip, |rules|);
    assert d - 1 == (m - 1) / 2 && Min(|rules|, d) == d;
    if z.client == ip {
      DropCounts(rules, n, ip);
      assert DropAt(rules, n) == rules[..n];
    } else {
      FilledUp(rules, z, d, ip);
    }
  }

  lemma FilledUp(rules: Rules, z: Rule, d: nat, ip: string)
    requires 0 < d <= Count(rules, ip) && z.client != ip
    ensures var after := DropLast(rules, ip, d) + Copies(z, d - 1);
            Count(after, ip) == Count(rules, ip) - d && Others(after, ip) == Others(rules, ip) + Copies(z, d - 1)
  {
    DropLastCounts(rules, ip, d);
    CopiesCount(z, d - 1, ip);
    OthersJoin(DropLast(rules, ip, d), Copies(z, d - 1), ip);
    CountJoin(DropLast(rules, ip, d), Copies(z, d - 1), ip);
  }

  /** The address has no rule left exactly if it did not have two, and was not the lone `*` that the default rule
      replaces; and where it did not have two, the deletion is DeleteNode. */
  lemma RuleGoneIff(rules: Rules, ip: string)
    ensures !HasClient(DeleteRule(rules, ip), ip) <==> !Twice(rules, ip) && !(ip == "*" && |rules| == 1 && rules[0].client == "*")
    ensures !Twice(rules, ip) ==> DeleteRule(rules, ip) == DeleteNode(rules, ip)
  {
    CountIff(rules, ip);
    TwiceIff(rules, ip);
    LastIndexIff(rules, ip);
    hide LastIndex, DropLast, Copies, Others, Twice;
    StoppedAfterIs(rules, ip, |rules|);
    var after := DeleteRule(rules, ip);
    if |rules| > 1 && HasClient(rules, ip) {
      DeleteRuleLeaves(rules, ip);
      CountIff(after, ip);
      if !Twice(rules, ip) { OnlyRuleDropped(rules, ip); }
    } else if HasClient(rules, ip) {
      assert rules == [rules[0]];
      CountOne(rules[0], ip);
      assert after[0] == DEFAULT_RULE;
    }
  }

  lemma OnlyRuleDropped(rules: Rules, ip: string)
    requires |rules| > 1 && Count(rules, ip) == 1
    ensures DeleteRule(rules, ip) == DeleteNode(rules, ip)
  {
    var n := |rules| - 1;
    StoppedAfterIs(rules, ip, |rules|);
    LastIndexIff(rules, ip);
    assert Copies(rules[n], 0) == [];
    if rules[n].client == ip {
      assert DropAt(rules, n) == rules[..n];
    } else {
      assert DropLast(DropAt(rules, LastIndex(rules, ip)), ip, 0) == DropAt(rules, LastIndex(rules, ip));
    }
  }

  /** With three rules for one address and a last rule for another, one of the three stays and the other's rule is doubled. */
  lemma RuleDoubled(a: Rule, b: Rule)
    requires a.client != b.client
    ensures DeleteRule([a, a, a, b], a.client) == [a, b, b]
  {
    var ip := a.client;
    var s0, s1, s2 := [a, a, a, b], [a, a, b, b], [a, b, b, b];
    assert s0[2].client == ip && s0[3].client != ip && s1[1].client == ip && s1[2].client != ip && s1[3].client != ip;
    assert LastIndex(s0, ip) == 2 && Shifted(s0, 2) == s1;
    assert LastIndex(s1, ip) == 1 && Shifted(s1, 1) == s2 && DeleteNode(s1, ip) == [a, b, b];
    var left := [a, b, b];
    assert Swept(s2, left, ip, 4, 2) == left;
    assert Swept(s2, left, ip, 3, 2) == left;
    assert Swept(s2, left, ip, 2, 2) == left;
    assert Swept(s1, DeleteNode(s0, ip), ip, 1, 3) == left;
  }

  // ----- publish and unpublish -----

  /** The address part of a node id. */
  function AddressOf(node: string): string
    requires |Split(node, "$$")| == 2
  {
    Split(node, "$$")[1]
  }

  lemma AddressIsShorter(node: string)
    requires |Split(node, "$$")| == 2
    ensures AddressOf(node) != node && |node| >= 2
  {
    var cut := Cut(node, "$$").value;
    assert Split(cut.1, "$$")[0] == AddressOf(node);
  }

  /** Publishing adds a rule for the address part of a node id `name$$address`; unpublishing asks for the deletion
      of the whole node id. So every rule for the address stays, and the list stays as it is exactly if no rule is written
      for the node id itself. */
  lemma UnpublishKeepsRule(parse: Parser, rules: Rules, access: string, noRootSquash: bool, node: string)
    requires |Split(node, "$$")| == 2
    ensures var published := AddNode(parse, rules, access, noRootSquash, AddressOf(node));
            (forall r :: r in published && r.client == AddressOf(node) ==> r in DeleteRule(published, node)) &&
            (DeleteRule(published, node) == published <==> !HasClient(rules, node))
  {
    var ip := AddressOf(node);
    AddressIsShorter(node);
    hide Split, Covers, DeleteRule;
    var published := AddNode(parse, rules, access, noRootSquash, ip);
    DeleteRuleKeepsOthers(published, node);
    AddNodeClients(parse, rules, access, noRootSquash, ip, node);
  }

  lemma AddNodeClients(parse: Parser, rules: Rules, access: string, noRootSquash: bool, ip: string, other: string)
    requires other != ip
    ensures HasClient(AddNode(parse, rules, access, noRootSquash, ip), other) <==> HasClient(rules, other)
  {
    var rules' := AddNode(parse, rules, access, noRootSquash, ip);
    assert forall j :: 0 <= j < |rules| ==> rules'[j] == rules[j];
  }

  lemma {:induction false} OthersMembers(rules: Rules, ip: string)
    ensures forall r :: r in Others(rules, ip) <==> r in rules && r.client != ip
    decreases |rules|
  {
    if rules != [] {
      OthersMembers(rules[1..], ip);
      assert rules == [rules[0]] + rules[1..];
    }
  }

  lemma DeleteRuleKeepsOthers(rules: Rules, ip: string)
    requires ip != "*"
    ensures forall r :: r in rules && r.client != ip ==> r in DeleteRule(rules, ip)
    ensures DeleteRule(rules, ip) == rules <==> !HasClient(rules, ip)
  {
    var after := DeleteRule(rules, ip);
    CountIff(rules, ip);
    CountIff(after, ip);
    StoppedAfterIs(rules, ip, |rules|);
    OthersMembers(rules, ip);
    OthersMembers(after, ip);
    if HasClient(rules, ip) && |rules| > 1 {
      DeleteRuleLeaves(rules, ip);
      assert forall r :: r in Others(rules, ip) ==> r in Others(after, ip);
    }
  }

  lemma AddedBeside(parse: Parser, rule: Rule, added: Rule)
    requires '-' !in rule.client && rule.client != added.client && rule.client != "*"
    ensures AddNode(parse, [rule], added.access, added.noRootSquash, added.client) == [rule, added]
  {
  }

  lemma StillHasRule(parse: Parser, node: string, rule: Rule)
    requires Split(node, "$$") == ["n", "10.0.0.9"] && rule.client == "10.0.0.1"
    ensures DeleteRule(AddNode(parse, [rule], "RW", true, AddressOf(node)), node) == [rule, Rule("RW", true, "10.0.0.9")]
  {
    var other := rule.client;
    assert AddressOf(node)[7] == '9' && other[7] == '1' && |other| == 8;
    assert |node| == 11 by { NodeIdLength(node); }
    hide Split, DeleteRule;
    AddedBeside(parse, rule, Rule("RW", true, AddressOf(node)));
    UnpublishKeepsRule(parse, [rule], "RW", true, node);
  }

  /** The node `n$$10.0.0.9` is published and unpublished on an export that had one other client: it still has its rule. */
  lemma UnpublishedNodeIsCovered(parse: Parser, access: string, noRootSquash: bool)
    ensures var node, rule := "n" + "$$" + "10.0.0.9", Rule(access, noRootSquash, "10.0.0.1");
            Split(node, "$$") == ["n", "10.0.0.9"] &&
            DeleteRule(AddNode(parse, [rule], "RW", true, AddressOf(node)), node) == [rule, Rule("RW", true, "10.0.0.9")]
  {
    hide Split, DeleteRule, AddNode;
    NodeId("n", "10.0.0.9");
    StillHasRule(parse, "n" + "$$" + "10.0.0.9", Rule(access, noRootSquash, "10.0.0.1"));
  }

  lemma NodeIdLength(node: string)
    requires |Split(node, "$$")| == 2
    ensures |node| == |Split(node, "$$")[0]| + 2 + |AddressOf(node)|
  {
    var cut := Cut(node, "$$").value;
    assert Split(node, "$$") == [cut.0] + Split(cut.1, "$$");
  }

  lemma NodeId(name: string, ip: string)
    requires '$' !in name && '$' !in ip
    ensures Split(name + "$$" + ip, "$$") == [name, ip]
  {
    NoCutWithout(ip, "$$");
    SplitPair(name, "$$", ip);
  }
}
