/** Two arrays with one replicated pair, and where the replication requests fall short on them. */
module ReplicationExamples {
  import opened Basics
  import opened Faults
  import opened Replication
  import opened Failover

  /** Array "a" holds the SOURCE. The links are called `linkName`, which is "a" or "b" where the convention of naming a
      link after the remote system is followed. */
  function TwoArrays(linkName: string): World {
    map["a" := Box(map[1 := Volume("pvc", 10)], 2, map["gold" := 10], [Link(1, linkName, "b", 1, true)],
                   map[1 := Replica(SOURCE, "pvc", 1, 1, 1, 1, 10, 20)], 2),
        "b" := Box(map[1 := Volume("pvc", 20)], 2, map["gold" := 20], [Link(1, linkName, "a", 1, true)],
                   map[1 := Replica(TARGET, "pvc", 1, 1, 1, 1, 20, 10)], 2)]
  }

  function PairAt(b: string, c: string, linkName: string): Pair {
    Pair(b, 1, c, 1, 1, 1, Link(1, linkName, c, 1, true), Link(1, linkName, b, 1, true))
  }

  lemma LinkedBothWays(w: World, n: string)
    requires w.Keys == {"a", "b"}
    requires w["a"].links == [Link(1, n, "b", 1, true)] && w["b"].links == [Link(1, n, "a", 1, true)]
    ensures LinksOk(w)
  {
    assert LinkOk(w, "a", Link(1, n, "b", 1, true)) && LinkOk(w, "b", Link(1, n, "a", 1, true));
  }

  /** An array with one volume, replicated or not, is in order. */
  lemma OneVolume(box: Box, v: Volume)
    requires box.volumes == map[1 := v] && box.nextVolume == 2 && box.nextReplica == 2
    requires box.replicas == map[] || (box.replicas.Keys == {1} && HalfOk(box, box.replicas[1]))
    ensures BoxOk(box)
  {
  }

  lemma TwoArraysAreGood(n: string)
    ensures var w := TwoArrays(n);
            Good(w) && IsPair(w, PairAt("a", "b", n)) && IsPair(w, PairAt("b", "a", n)) &&
            w["a"].replicas[1].role == SOURCE && w["b"].replicas[1].role == TARGET
  {
    var w := TwoArrays(n);
    LinkedBothWays(w, n);
    hide LinksOk, BoxOk;
    OneVolume(w["a"], Volume("pvc", 10));
    OneVolume(w["b"], Volume("pvc", 20));
    var la, lb := Link(1, n, "b", 1, true), Link(1, n, "a", 1, true);
    assert w["a"].links == [la] && w["b"].links == [lb];
    assert la in w["a"].links && lb in w["b"].links;
    assert PairOk(w, "a", 1) && PairOk(w, "b", 1);
  }

  /** A Demote that loses its last call, the creation, leaves the pair split; repeated with every call answered it reports
      success and leaves it split. */
  lemma RepeatedDemoteLeavesSplit(f: Script, g: Script)
    requires (forall n :: f.call(n) <==> n != 6) && Reliable(g)
    ensures var w, p := TwoArrays("b"), PairAt("a", "b", "b");
            Good(w) && IsPair(w, p) &&
            var o1 := Step(w, "a", DemoteOp(1), f, 0);
            var o2 := Step(o1.world, "a", DemoteOp(1), g, 0);
            !o1.ok && o1.world == Split(w, p) != w && o2.ok && o2.world == Split(w, p)
  {
    var w, p := TwoArrays("b"), PairAt("a", "b", "b");
    TwoArraysAreGood("b");
    assert BoxOk(w["a"]);
    FoundByName(w["a"], 1, 1);
    DeleteSplits(w, p);
    assert 1 !in Split(w, p)["a"].replicas;
    var o1 := Demote(w, "a", 1, f, 0);
    assert o1 == Outcome(Split(w, p), false, 7);
    DemoteRetry(w, p, f, 0, g, 0);
  }

  /** A Promote on arrays whose link is not named after the remote system takes the pair away and fails. */
  lemma PromoteWithoutLinkName(f: Script)
    requires Reliable(f)
    ensures var w, p := TwoArrays("link"), PairAt("b", "a", "link");
            Good(w) && IsPair(w, p) &&
            var o := Step(w, "b", PromoteOp(1), f, 0); !o.ok && o.world == Split(w, p) != w
  {
    var w, p := TwoArrays("link"), PairAt("b", "a", "link");
    TwoArraysAreGood("link");
    assert BoxOk(w["b"]);
    FoundByName(w["b"], 1, 1);
    OtherHalfFound(w, p);
    DeleteSplits(w, p);
    assert "link" != "a" by { assert |"link"| != |"a"|; }
    assert FirstLinkNamed(w["b"].links, "a") == None;
    assert 1 !in Split(w, p)["b"].replicas;
  }

  /** The arrays before replication: "gold" is pool 10 on one and pool 20 on the other, and the volume is on "a" only. */
  function Unreplicated(): World {
    map["a" := Box(map[1 := Volume("pvc", 10)], 2, map["gold" := 10], [Link(1, "b", "b", 1, true)], map[], 2),
        "b" := Box(map[], 2, map["gold" := 20], [Link(1, "b", "a", 1, true)], map[], 2)]
  }

  lemma UnreplicatedIsGood()
    ensures Good(Unreplicated())
  {
    var w := Unreplicated();
    LinkedBothWays(w, "b");
    hide LinksOk, BoxOk, PairOk;
    OneVolume(w["a"], Volume("pvc", 10));
    NoVolume(w["b"]);
  }

  lemma NoVolume(box: Box)
    requires box.volumes == map[] && box.replicas == map[]
    ensures BoxOk(box)
  {
  }

  /** Enable with pool "gold" succeeds and puts the remote volume into pool 10, which is not what "b" calls "gold". */
  lemma EnableMissesPool(f: Script)
    requires Reliable(f)
    ensures var w := Unreplicated();
            Good(w) && var o := Step(w, "a", EnableOp(1, "b", "gold"), f, 0);
            o.ok && 2 in o.world["b"].volumes && o.world["b"].volumes[2].pool != w["b"].pools["gold"]
  {
    var w := Unreplicated();
    UnreplicatedIsGood();
    var l := Link(1, "b", "b", 1, true);
    assert LastLinkTo(w["a"].links, "b") == Some(l) && FindLink(w["a"].links, 1) == Some(l);
    assert !NameTaken(w["b"], "pvc");
    assert CreateReplica(w, "a", 1, 1, 10).Some?;
    EnablePool(w, "a", 1, "b", "gold", f, 0);
  }
}
