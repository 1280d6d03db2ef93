/** The export operations of the driver. Rule lists are fetched into arrays that are then shifted in place,
    in one case while an outer loop is still reading the same array. */
module ExportDriver {
  import opened AddressRanges
  import opened Basics
  import opened ExportRules
  import opened Faults
  import opened RuleDeletion

  datatype Export = Export(fileSystem: int, rules: Rules)

  type Exports = map<int, Export>

  function WithRules(exports: Exports, id: int, rules: Rules): Exports
    requires id in exports
  {
    exports[id := exports[id].(rules := rules)]
  }

  /** The list of an export for which DeleteExportRule was stopped by a lost call. */
  ghost predicate PartlyDeleted(before: Rules, after: Rules, ip: string) {
    after == before || exists hits :: after == StoppedAfter(before, ip, hits)
  }

  ghost predicate SameExports(a: Exports, b: Exports) {
    a.Keys == b.Keys && forall id :: id in a ==> b[id].fileSystem == a[id].fileSystem
  }

  /** An export is as the cleanup leaves it, or untouched. */
  ghost predicate Cleaned(before: Rules, after: Option<Rules>, ip: string) {
    after == Some(before) || after == Clean(before, ip)
  }

  /** Export `id` is cleaned or untouched; certainly cleaned if `exact`. */
  ghost predicate CleanedAt(before: Exports, after: Exports, id: int, ip: string, exact: bool)
    requires id in before
  {
    var rules := if id in after then Some(after[id].rules) else None;
    Cleaned(before[id].rules, rules, ip) && (exact ==> rules == Clean(before[id].rules, ip)) &&
    (id in after ==> after[id].fileSystem == before[id].fileSystem)
  }

  /** How AddNodeInExport ends. */
  datatype Answered = Done | Refused | Crashed

  /** What the loop stores from this point on, when it is stopped after some more deletions, is what it stores
      from the start with `hits` more of them. */
  ghost predicate Sweeps(rules: Rules, now: Rules, stored: Rules, ip: string, j: nat, hits: nat) {
    j <= |now| && forall limit: nat :: Swept(now, stored, ip, j, limit) == StoppedAfter(rules, ip, hits + limit)
  }

  lemma SweepStarts(rules: Rules, ip: string)
    ensures Sweeps(rules, rules, rules, ip, 0, 0)
  {
  }

  lemma SweepStep(rules: Rules, now: Rules, stored: Rules, ip: string, j: nat, hits: nat)
    requires Sweeps(rules, now, stored, ip, j, hits) && j < |now|
    ensures now[j].client != ip ==> Sweeps(rules, now, stored, ip, j + 1, hits)
    ensures now[j].client == ip ==> LastIndex(now, ip) >= 0
    ensures now[j].client == ip ==> Sweeps(rules, Shifted(now, LastIndex(now, ip)), DeleteNode(now, ip), ip, j + 1, hits + 1)
    ensures stored == StoppedAfter(rules, ip, hits)
  {
    hide StoppedAfter, LastIndex, Shifted, DeleteNode;
    var next := j + 1;
    assert Swept(now, stored, ip, j, 0) == stored;
    if now[j].client != ip {
      forall limit: nat ensures Swept(now, stored, ip, next, limit) == StoppedAfter(rules, ip, hits + limit) {
        assert Swept(now, stored, ip, j, limit) == StoppedAfter(rules, ip, hits + limit);
        assert limit == 0 ==> Swept(now, stored, ip, next, limit) == stored;
      }
    } else {
      var now', stored' := Shifted(now, LastIndex(now, ip)), DeleteNode(now, ip);
      forall limit: nat ensures Swept(now', stored', ip, next, limit) == StoppedAfter(rules, ip, hits + 1 + limit) {
        assert Swept(now, stored, ip, j, limit + 1) == StoppedAfter(rules, ip, hits + (limit + 1));
      }
    }
  }

  lemma SweepEnds(rules: Rules, now: Rules, stored: Rules, ip: string, hits: nat)
    requires Sweeps(rules, now, stored, ip, |now|, hits) && hits <= |rules|
    ensures stored == DeleteRule(rules, ip)
  {
    assert Swept(now, stored, ip, |now|, |rules| - hits) == stored;
  }

  /** The rule is deleted from the exports in `done`; the others are untouched. */
  ghost predicate DeletedSoFar(before: Exports, after: Exports, done: seq<int>, ip: string) {
    SameExports(before, after) &&
    (forall id :: id in before && id in done ==> after[id].rules == DeleteRule(before[id].rules, ip)) &&
    (forall id :: id in before && id !in done ==> after[id] == before[id])
  }

  lemma OneMoreDeleted(before: Exports, now: Exports, after: Exports, done: seq<int>, id: int, ip: string)
    requires DeletedSoFar(before, now, done, ip) && id in before && id !in done
    requires id in after && after == WithRules(now, id, after[id].rules)
    ensures after[id].rules == DeleteRule(before[id].rules, ip) ==> DeletedSoFar(before, after, done + [id], ip)
    ensures SameExports(before, after) && forall other :: other in before && other != id ==> after[other] == now[other]
  {
    hide DeleteRule;
  }

  /** The exports in `done` are cleaned or untouched, the others untouched. */
  ghost predicate CleanedSoFar(before: Exports, after: Exports, done: seq<int>, ip: string, exact: bool) {
    after.Keys <= before.Keys &&
    (forall id :: id in before && id in done ==> CleanedAt(before, after, id, ip, exact)) &&
    (forall id :: id in before && id !in done ==> id in after && after[id] == before[id])
  }

  lemma OneMoreCleaned(before: Exports, now: Exports, after: Exports, done: seq<int>, id: int, ip: string, exact: bool)
    requires CleanedSoFar(before, now, done, ip, exact) && id in before && id !in done
    requires id in now && CleanedAt(now, after, id, ip, exact) && after.Keys <= now.Keys
    requires forall other :: other in now && other != id ==> other in after && after[other] == now[other]
    ensures CleanedSoFar(before, after, done + [id], ip, exact)
  {
    forall other | other in before && other in done ensures CleanedAt(before, after, other, ip, exact) {
      assert CleanedAt(before, now, other, ip, exact);
    }
  }

  /** `ids` are the exports of the file system, each once. */
  ghost predicate ListsExports(exports: Exports, fs: int, ids: seq<int>) {
    Distinct(ids) && forall id :: id in ids <==> id in exports && exports[id].fileSystem == fs
  }

  /** DeleteExportRule stopped at the export `ids[n]`: the ones before it are done, those after it untouched. */
  ghost predicate StoppedAt(before: Exports, after: Exports, ids: seq<int>, n: nat, ip: string) {
    SameExports(before, after) && n < |ids| && ids[n] in before &&
    (forall k :: 0 <= k < n ==> ids[k] in before && after[ids[k]].rules == DeleteRule(before[ids[k]].rules, ip)) &&
    PartlyDeleted(before[ids[n]].rules, after[ids[n]].rules, ip) &&
    (forall k :: n < k < |ids| ==> ids[k] in before && after[ids[k]] == before[ids[k]])
  }

  /** The export's only rule is for the address, and it is still there. */
  ghost predicate LoneStays(before: Exports, after: Exports, id: int, ip: string) {
    id in before && |before[id].rules| == 1 && before[id].rules[0].client == ip && id in after
  }

  /** The cleanup passed `n` exports: none of which it should have deleted and did not, but the last if that ended it early. */
  ghost predicate CleanupPassed(before: Exports, after: Exports, ids: seq<int>, n: nat, ip: string) {
    n <= |ids| &&
    (forall k :: 0 <= k < n - 1 ==> !LoneStays(before, after, ids[k], ip)) &&
    (forall k :: n <= k < |ids| ==> ids[k] in before && ids[k] in after && after[ids[k]] == before[ids[k]]) &&
    (n < |ids| ==> n > 0 && LoneStays(before, after, ids[n - 1], ip))
  }

  class ExportArray {
    var exports: Exports
    var clock: nat
    const script: Script
    const parse: Parser

    constructor (exports: Exports, script: Script, parse: Parser)
      ensures this.exports == exports && this.script == script && this.parse == parse && clock == 0
    {
      this.exports, this.script, this.parse, clock := exports, script, parse, 0;
    }

    // ----- calls of the array -----

    method Call() returns (ok: bool)
      modifies this`clock
      ensures clock == old(clock) + 1 && ok == script.call(old(clock))
    {
      ok := script.call(clock);
      clock := clock + 1;
    }

    method UpdateExportPermissions(id: int, rules: Rules) returns (ok: bool)
      requires id in exports
      modifies this`exports, this`clock
      ensures clock == old(clock) + 1 && ok == script.call(old(clock))
      ensures exports == if ok then WithRules(old(exports), id, rules) else old(exports)
    {
      ok := Call();
      if ok { exports := WithRules(exports, id, rules); }
    }

    /** The exports of a file system, each once. */
    method GetExportsByFileSystemID(fs: int) returns (r: Reply<seq<int>>)
      modifies this`clock
      ensures r.Answer? ==> ListsExports(exports, fs, r.value)
      ensures Answers(script) ==> r.Answer?
    {
      var ok := Call();
      if !ok { return Lost; }
      var ids: seq<int> := [];
      var left := set id | id in exports && exports[id].fileSystem == fs;
      ghost var all := left;
      while left != {}
        invariant left <= all && forall id :: id in ids <==> id in all - left
        invariant forall i, j :: 0 <= i < j < |ids| ==> ids[i] != ids[j]
        decreases |left|
      {
        SomeKey(left);
        var id :| id in left;
        assert id !in ids;
        ids, left := ids + [id], left - {id};
      }
      r := Answer(ids);
    }

    // ----- the driver -----

    /** append(s[:index], s[index+1:]...): the rest moves down inside the same array. */
    method RemoveIndex(perms: array<Rule>, index: nat)
      requires index < perms.Length
      modifies perms
      ensures perms[..perms.Length - 1] == DropAt(old(perms[..]), index)
      ensures perms[perms.Length - 1] == old(perms[perms.Length - 1])
    {
      ghost var was := perms[..];
      var k := index;
      while k < perms.Length - 1
        invariant index <= k <= perms.Length - 1
        invariant forall j :: 0 <= j < index ==> perms[j] == was[j]
        invariant forall j :: index <= j < k ==> perms[j] == was[j + 1]
        invariant forall j :: k <= j < perms.Length ==> perms[j] == was[j]
      {
        perms[k] := perms[k + 1];
        k := k + 1;
      }
      DropAtRules(was, index);
      assert forall j :: 0 <= j < perms.Length - 1 ==> perms[j] == DropAt(was, index)[j];
    }

    /** The loop of AddNodeInExport: whether the address is covered, and the last `*` rule that does not match it itself. */
    method ScanRules(perms: array<Rule>, ip: string) returns (flag: bool, index: int)
      ensures flag == Covers(parse, perms[..], ip) && -1 <= index < perms.Length && (index >= 0 ==> flag)
    {
      hide Matches;
      flag, index := false, -1;
      var k := 0;
      while k < perms.Length
        invariant 0 <= k <= perms.Length
        invariant flag <==> exists j :: 0 <= j < k && (Matches(parse, perms[j].client, ip) || perms[j].client == "*")
        invariant -1 <= index < k && (index >= 0 ==> flag)
      {
        if Matches(parse, perms[k].client, ip) {
          flag := true;
        } else if perms[k].client == "*" {
          index, flag := k, true;
        }
        k := k + 1;
      }
    }

    /** AddNodeInExport: the stored list becomes AddNode of it, or stays if the array does not answer. An export that cannot be
        read is dereferenced for the error message. */
    method AddNodeInExport(id: int, access: string, noRootSquash: bool, ip: string) returns (answer: Answered)
      modifies this`exports, this`clock
      ensures answer == Crashed <==> !script.call(old(clock)) || id !in old(exports)
      ensures answer == Refused ==> !Covers(parse, old(exports)[id].rules, ip) && !script.call(old(clock) + 1)
      ensures exports == if answer != Done then old(exports)
                         else WithRules(old(exports), id, AddNode(parse, old(exports)[id].rules, access, noRootSquash, ip))
    {
      hide Covers;
      var ok := Call();
      if !ok || id !in exports { return Crashed; }
      var rules := exports[id].rules;
      var perms := new Rule[|rules|](i requires 0 <= i < |rules| => rules[i]);
      assert perms[..] == rules;
      var flag, index := ScanRules(perms, ip);
      if index != -1 {
        RemoveIndex(perms, index);
      }
      if !flag {
        ok := UpdateExportPermissions(id, perms[..] + [Rule(access, noRootSquash, ip)]);
        if !ok { return Refused; }
      }
      answer := Done;
    }

    /** The last rule for the address goes from the array and from the stored list. */
    method DeleteNodeFromExport(id: int, perms: array<Rule>, ip: string) returns (ok: bool)
      requires id in exports
      modifies this`exports, this`clock, perms
      ensures var rules := old(perms[..]);
              var k := LastIndex(rules, ip);
              if k < 0 then ok && perms[..] == rules && exports == old(exports)
              else perms[..] == Shifted(rules, k) &&
                   exports == if ok then WithRules(old(exports), id, DeleteNode(rules, ip)) else old(exports)
      ensures Answers(script) ==> ok
    {
      var flag, index := false, 0;
      ghost var rules := perms[..];
      var k := 0;
      while k < perms.Length
        invariant 0 <= k <= perms.Length && perms[..] == rules
        invariant 0 <= index <= k && (flag ==> index < k && rules[index].client == ip)
        invariant forall j :: (if flag then index else -1) < j < k ==> rules[j].client != ip
      {
        if perms[k].client == ip { flag, index := true, k; }
        k := k + 1;
      }
      if !flag { return true; }
      RemoveIndex(perms, index);
      if perms.Length == 1 {
        perms[0] := DEFAULT_RULE;
        assert perms[..] == [DEFAULT_RULE];
        ok := UpdateExportPermissions(id, [perms[0]]);
      } else {
        assert perms[..] == perms[..perms.Length - 1] + [perms[perms.Length - 1]];
        ok := UpdateExportPermissions(id, perms[..perms.Length - 1]);
      }
    }

    /** The inner loop of DeleteExportRule. It reads `perms` at the old length while the deletions shift it. */
    method DeleteRuleFromExport(id: int, perms: array<Rule>, ip: string) returns (ok: bool)
      requires id in exports && exports[id].rules == perms[..]
      modifies this`exports, this`clock, perms
      ensures id in exports && exports == WithRules(old(exports), id, exports[id].rules)
      ensures ok ==> exports[id].rules == DeleteRule(old(exports)[id].rules, ip)
      ensures !ok ==> PartlyDeleted(old(exports)[id].rules, exports[id].rules, ip)
      ensures Answers(script) ==> ok
    {
      hide Swept, LastIndex, DeleteRule, StoppedAfter, Sweeps;
      ghost var rules := perms[..];
      ghost var hits := 0;
      SweepStarts(rules, ip);
      var j := 0;
      while j < perms.Length
        invariant 0 <= hits <= j <= perms.Length == |rules|
        invariant id in exports && exports == WithRules(old(exports), id, exports[id].rules)
        invariant Sweeps(rules, perms[..], exports[id].rules, ip, j, hits)
      {
        SweepStep(rules, perms[..], exports[id].rules, ip, j, hits);
        if perms[j].client == ip {
          ok := DeleteNodeFromExport(id, perms, ip);
          if !ok { return; }
          hits := hits + 1;
        }
        j := j + 1;
      }
      SweepEnds(rules, perms[..], exports[id].rules, ip, hits);
      ok := true;
    }

    /** DeleteExportRule: every export of the file system is treated, no other one is touched, and none disappears. */
    method DeleteExportRule(fs: int, ip: string) returns (ok: bool)
      modifies this`exports, this`clock
      ensures SameExports(old(exports), exports)
      ensures forall id :: id in exports && exports[id].fileSystem != fs ==> exports[id] == old(exports)[id]
      ensures ok ==> forall id :: id in exports && exports[id].fileSystem == fs ==>
                exports[id].rules == DeleteRule(old(exports)[id].rules, ip)
      ensures forall id :: id in exports && exports[id].fileSystem == fs ==>
                PartlyDeleted(old(exports)[id].rules, exports[id].rules, ip)
      ensures ok || exports == old(exports) ||
                exists ids, n :: ListsExports(old(exports), fs, ids) && StoppedAt(old(exports), exports, ids, n, ip)
      ensures Answers(script) ==> ok
    {
      hide StoppedAfter;
      var reply := GetExportsByFileSystemID(fs);
      if !reply.Answer? { return false; }
      var ids, fetched := reply.value, exports;
      var i := 0;
      while i < |ids|
        invariant 0 <= i <= |ids| && DeletedSoFar(fetched, exports, ids[..i], ip)
      {
        var id := ids[i];
        assert id in ids && id !in ids[..i];
        var rules := fetched[id].rules;
        var perms := new Rule[|rules|](k requires 0 <= k < |rules| => rules[k]);
        assert perms[..] == rules;
        ghost var before := exports;
        ok := DeleteRuleFromExport(id, perms, ip);
        OneMoreDeleted(fetched, before, exports, ids[..i], id, ip);
        if !ok {
          assert ListsExports(fetched, fs, ids) && StoppedAt(fetched, exports, ids, i, ip);
          return;
        }
        assert ids[..i + 1] == ids[..i] + [id];
        i := i + 1;
      }
      assert ids[..i] == ids;
      ok := true;
    }

    /** cleanupNFSPerms: unless the volume is still mounted on the node, or that cannot be told, for each export of the file system
        the node's last rule goes, with the whole export if it was the only one. An unanswered update is passed over; an unanswered
        export deletion ends the call. */
    method CleanupNFSPerms(fs: int, ip: string, mounted: Option<bool>)
      modifies this`exports, this`clock
      ensures mounted != Some(false) ==> exports == old(exports)
      ensures exports.Keys <= old(exports).Keys
      ensures forall id :: id in old(exports) && old(exports)[id].fileSystem != fs ==> id in exports && exports[id] == old(exports)[id]
      ensures forall id :: id in old(exports) && old(exports)[id].fileSystem == fs ==>
                CleanedAt(old(exports), exports, id, ip, Answers(script) && mounted == Some(false))
      ensures exports == old(exports) ||
                exists ids, n :: ListsExports(old(exports), fs, ids) && CleanupPassed(old(exports), exports, ids, n, ip)
    {
      var found := Call();
      if !found { return; }
      var reply := GetExportsByFileSystemID(fs);
      if !reply.Answer? { return; }
      var ids, fetched := reply.value, exports;
      if |ids| == 0 || mounted != Some(false) { return; }
      var i := 0;
      while i < |ids|
        invariant 0 <= i <= |ids| && CleanedSoFar(fetched, exports, ids[..i], ip, Answers(script))
        invariant forall k :: 0 <= k < i ==> !LoneStays(fetched, exports, ids[k], ip)
      {
        var id := ids[i];
        assert id in ids && id !in ids[..i];
        ghost var before := exports;
        var ok := CleanExport(id, ip);
        OneMoreCleaned(fetched, before, exports, ids[..i], id, ip, Answers(script));
        assert ids[..i + 1] == ids[..i] + [id];
        if !ok {
          assert CleanupPassed(fetched, exports, ids, i + 1, ip);
          return;
        }
        i := i + 1;
      }
      assert ids[..i] == ids;
      assert CleanupPassed(fetched, exports, ids, i, ip);
    }

    /** The body of the cleanup loop; false ends the call. */
    method CleanExport(id: int, ip: string) returns (ok: bool)
      requires id in exports
      modifies this`exports, this`clock
      ensures exports.Keys <= old(exports).Keys
      ensures forall other :: other in old(exports) && other != id ==> other in exports && exports[other] == old(exports)[other]
      ensures CleanedAt(old(exports), exports, id, ip, Answers(script))
      ensures ok <==> !LoneStays(old(exports), exports, id, ip)
      ensures !ok ==> exports == old(exports)
      ensures Answers(script) ==> ok
    {
      hide LastIndex;
      ok := true;
      var rules := exports[id].rules;
      var found, index := FindRule(rules, ip);
      if |rules| == 1 && found {
        ok := Call();
        if ok { exports := exports - {id}; }
      } else if |rules| > 1 && found {
        var perms := new Rule[|rules|](k requires 0 <= k < |rules| => rules[k]);
        assert perms[..] == rules;
        RemoveIndex(perms, index);
        var updated := UpdateExportPermissions(id, perms[..perms.Length - 1]);
      }
    }

    /** The loop that looks for the node's rule; a later match overrides an earlier one. */
    method FindRule(rules: Rules, ip: string) returns (found: bool, index: nat)
      ensures var k := LastIndex(rules, ip); if found then index == k else k < 0
    {
      found, index := false, 0;
      var k := 0;
      while k < |rules|
        invariant 0 <= k <= |rules|
        invariant var last := LastIndex(rules[..k], ip); if found then index == last else last < 0
      {
        assert rules[..k + 1][..k] == rules[..k];
        if rules[k].client == ip { found, index := true, k; }
        k := k + 1;
      }
      assert rules[..k] == rules;
    }
  }

  /** Publishing to an export that does not exist. */
  method MissingExportCrashes() returns (answer: Answered)
    ensures answer == Crashed
  {
    var exports := new ExportArray(map[], Script(n => true, n => true), text => []);
    answer := exports.AddNodeInExport(1, "RW", true, "10.0.0.1");
  }
}
