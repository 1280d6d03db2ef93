/** The replication requests of the driver, call by call, on a set of arrays. */
module ReplicationDriver {
  import opened Basics
  import opened Faults
  import opened Replication

  ghost predicate Lists(list: seq<Replica>, v: int) {
    exists k :: 0 <= k < |list| && list[k].volume == v
  }

  class ReplicationServer {
    var arrays: World
    var clock: nat
    const script: Script

    constructor (arrays: World, script: Script)
      ensures this.arrays == arrays && this.script == script && clock == 0
    {
      this.arrays, this.script, clock := arrays, script, 0;
    }

    // ----- calls of the arrays -----

    method Call() returns (ok: bool)
      modifies this`clock
      ensures clock == old(clock) + 1 && ok == script.call(old(clock))
    {
      ok := script.call(clock);
      clock := clock + 1;
    }

    method GetVolume(b: string, v: int) returns (r: Reply<Volume>)
      requires b in arrays
      modifies this`clock
      ensures clock == old(clock) + 1
      ensures r == if !script.call(old(clock)) then Lost else if v in arrays[b].volumes then Answer(arrays[b].volumes[v]) else NotFound
    {
      var ok := Call();
      r := if !ok then Lost else if v in arrays[b].volumes then Answer(arrays[b].volumes[v]) else NotFound;
    }

    /** All replicas of an array, in some order. */
    method GetReplicas(b: string) returns (r: Reply<seq<Replica>>)
      requires b in arrays
      modifies this`clock
      ensures clock == old(clock) + 1
      ensures r.Answer? == script.call(old(clock))
      ensures r.Answer? ==> forall v :: Lists(r.value, v) <==> Replicated(arrays[b], v)
    {
      var ok := Call();
      if !ok { return Lost; }
      var replicas := arrays[b].replicas;
      var list: seq<Replica> := [];
      var left := replicas.Keys;
      while left != {}
        invariant left <= replicas.Keys && clock == old(clock) + 1
        invariant forall k :: 0 <= k < |list| ==> Replicated(arrays[b], list[k].volume)
        invariant forall i :: i in replicas.Keys - left ==> exists k :: 0 <= k < |list| && list[k] == replicas[i]
        decreases |left|
      {
        SomeKey(left);
        var i :| i in left;
        ghost var before := list;
        list := list + [replicas[i]];
        left := left - {i};
        assert list[|before|] == replicas[i];
        assert forall k :: 0 <= k < |before| ==> list[k] == before[k];
      }
      assert replicas.Keys - left == replicas.Keys;
      r := Answer(list);
    }

    /** The replica of the volume of that name. */
    method GetReplicaForLocalEntityName(b: string, name: string) returns (r: Reply<int>)
      requires b in arrays
      modifies this`clock
      ensures clock == old(clock) + 1
      ensures !script.call(old(clock)) ==> r == Lost
      ensures script.call(old(clock)) ==>
                if ReplicaFor(arrays[b], name).None? then r == NotFound else r.Answer? && ReplicaOf(arrays[b], r.value, name)
    {
      var ok := Call();
      if !ok { return Lost; }
      var replicas := arrays[b].replicas;
      if i :| i in replicas && replicas[i].name == name {
        assert ReplicaOf(arrays[b], i, name);
        return Answer(i);
      }
      return NotFound;
    }

    /** Both halves go. */
    method RemoveReplica(b: string, i: int) returns (ok: bool)
      requires b in arrays && i in arrays[b].replicas
      modifies this
      ensures clock == old(clock) + 1 && ok == script.call(old(clock))
      ensures arrays == if ok then DeleteReplica(old(arrays), b, i) else old(arrays)
    {
      ok := Call();
      if ok { arrays := DeleteReplica(arrays, b, i); }
    }

    method AddPair(b: string, v: int, link: int, pool: int) returns (ok: bool)
      requires BoxesOk(arrays)
      modifies this
      ensures Outcome(arrays, ok, clock) == CreateOutcome(old(arrays), b, v, link, pool, script, old(clock))
    {
      ok := Call();
      if !ok { return; }
      if b !in arrays || v !in arrays[b].volumes || Replicated(arrays[b], v) { return false; }
      var found := FindLink(arrays[b].links, link);
      if found.None? || found.value.remote !in arrays || found.value.remote == b { return false; }
      var l := found.value;
      var there, name := arrays[l.remote], arrays[b].volumes[v].name;
      if u :| u in there.volumes && there.volumes[u].name == name {
        assert Named(there, u, name);
        assert BoxOk(there);
        assert VolumeOf(there, name) == u;
        if Replicated(there, u) || there.volumes[u].pool != pool { return false; }
        arrays := Join(arrays, b, v, l, u);
      } else {
        arrays := Join(arrays[l.remote := AddVolume(there, Volume(name, pool))], b, v, l, there.nextVolume);
      }
    }

    // ----- the driver -----

    /** The link to use for a remote system: the last one listed, which must have an id and be up. */
    method ValidateLink(links: seq<Link>, remote: string) returns (link: Option<Link>)
      ensures var last := LastLinkTo(links, remote);
              link == if last.Some? && last.value.id != 0 && last.value.up then last else None
    {
      link := None;
      var i := 0;
      while i < |links|
        invariant 0 <= i <= |links|
        invariant link == LastLinkTo(links[..i], remote)
      {
        assert links[..i + 1][..i] == links[..i];
        if links[i].remote == remote {
          link := Some(links[i]);
        }
        i := i + 1;
      }
      assert links[..i] == links;
      if link.Some? && (link.value.id == 0 || !link.value.up) {
        link := None;
      }
    }

    /** The id of the first link of that name, 0 if there is none. */
    method LinkNamed(links: seq<Link>, name: string) returns (id: int)
      ensures id == match FirstLinkNamed(links, name) case None => 0 case Some(l) => l.id
    {
      id := 0;
      var k := 0;
      while k < |links|
        invariant 0 <= k <= |links| && id == 0
        invariant FirstLinkNamed(links, name) == FirstLinkNamed(links[k..], name)
      {
        if links[k].name == name {
          return links[k].id;
        }
        k := k + 1;
      }
    }

    method EnableVolumeReplication(b: string, v: int, remote: string, poolName: string) returns (ok: bool)
      requires b in arrays && BoxesOk(arrays)
      modifies this
      ensures Outcome(arrays, ok, clock) == Enable(old(arrays), b, v, remote, poolName, script, old(clock))
    {
      var volume := GetVolume(b, v);
      if !volume.Answer? { return false; }
      ok := Call();
      if !ok || poolName !in arrays[b].pools { return false; }
      ok := Call();
      if !ok { return; }
      var link := ValidateLink(arrays[b].links, remote);
      if link.None? { return false; }
      var replicas := GetReplicas(b);
      if !replicas.Answer? { return false; }
      var i := 0;
      while i < |replicas.value|
        invariant 0 <= i <= |replicas.value|
        invariant forall k :: 0 <= k < i ==> replicas.value[k].volume != v
      {
        if replicas.value[i].volume == v { return false; }
        i := i + 1;
      }
      ok := AddPair(b, v, link.value.id, arrays[b].pools[poolName]);
    }

    method DisableVolumeReplication(b: string, v: int) returns (ok: bool)
      requires b in arrays && BoxOk(arrays[b])
      modifies this
      ensures Outcome(arrays, ok, clock) == Disable(old(arrays), b, v, script, old(clock))
    {
      var volume := GetVolume(b, v);
      if !volume.Answer? { return false; }
      var replica := GetReplicaForLocalEntityName(b, volume.value.name);
      if !replica.Answer? { return false; }
      SameReplica(arrays[b], replica.value, volume.value.name);
      ok := RemoveReplica(b, replica.value);
    }

    method PromoteVolume(b: string, v: int) returns (ok: bool)
      requires b in arrays && Good(arrays)
      modifies this
      ensures Outcome(arrays, ok, clock) == Promote(old(arrays), b, v, script, old(clock))
    {
      ok := Call();
      if !ok { return; }
      var links := arrays[b].links;
      var volume := GetVolume(b, v);
      if !volume.Answer? { return false; }
      var name := volume.value.name;
      var replica := GetReplicaForLocalEntityName(b, name);
      if !replica.Answer? { return replica.NotFound?; }
      assert BoxOk(arrays[b]);
      SameReplica(arrays[b], replica.value, name);
      var r := arrays[b].replicas[replica.value];
      if r.role == SOURCE { return true; }
      ok := PromoteTargetVolume(b, v, replica.value, links);
    }

    /** The rest of PromoteVolume, from the lookup of the link on. */
    method PromoteTargetVolume(b: string, v: int, i: int, links: seq<Link>) returns (ok: bool)
      requires b in arrays && Good(arrays) && v in arrays[b].volumes && i in arrays[b].replicas && links == arrays[b].links
      modifies this
      ensures Outcome(arrays, ok, clock) == PromoteTarget(old(arrays), b, v, i, script, old(clock))
    {
      hide CreateOutcome, DeleteReplica, BoxOk, PairsOk, LinksOk, FindLink;
      var r, name := arrays[b].replicas[i], arrays[b].volumes[v].name;
      ok := Call();
      var link := FindLink(links, r.link);
      if !ok || link.None? { return false; }
      var remote := link.value.remote;
      ok := Call();
      if !ok || remote !in arrays { return false; }
      var source := GetReplicaForLocalEntityName(remote, name);
      if !source.Answer? { return false; }
      assert BoxOk(arrays[remote]);
      SameReplica(arrays[remote], source.value, name);
      DeleteKeepsBoxes(arrays, remote, source.value);
      ok := RemoveReplica(remote, source.value);
      if !ok { return; }
      var back := LinkNamed(links, remote);
      if back == 0 { return false; }

      ok := AddPair(b, v, back, r.remotePool);
    }

    method DemoteVolume(b: string, v: int) returns (ok: bool)
      requires b in arrays && Good(arrays)
      modifies this
      ensures Outcome(arrays, ok, clock) == Demote(old(arrays), b, v, script, old(clock))
    {
      var volume := GetVolume(b, v);
      if !volume.Answer? { return false; }
      var replica := GetReplicaForLocalEntityName(b, volume.value.name);
      if !replica.Answer? { return replica.NotFound?; }
      assert BoxOk(arrays[b]);
      SameReplica(arrays[b], replica.value, volume.value.name);
      var r := arrays[b].replicas[replica.value];
      if r.role == TARGET { return true; }
      ok := DemoteSourceVolume(b, replica.value);
    }

    /** The rest of DemoteVolume, from the lookup of the link on. */
    method DemoteSourceVolume(b: string, i: int) returns (ok: bool)
      requires b in arrays && Good(arrays) && i in arrays[b].replicas
      modifies this
      ensures Outcome(arrays, ok, clock) == DemoteSource(old(arrays), b, i, script, old(clock))
    {
      hide RecreateOutcome, DeleteReplica, BoxOk, PairsOk, LinksOk, FindLink;
      var r := arrays[b].replicas[i];
      ok := Call();
      var link := FindLink(arrays[b].links, r.link);
      if !ok || link.None? { return false; }
      var remote := link.value.remote;
      ok := Call();
      if !ok || remote !in arrays { return false; }
      DeleteKeepsBoxes(arrays, b, i);
      ok := RemoveReplica(b, i);
      if !ok { return; }
      ok := Recreate(remote, r.peerVolume, link.value.remoteLink, r.localPool);
    }

    /** The new replica on the other side, once the volume there is found. */
    method Recreate(b: string, v: int, link: int, pool: int) returns (ok: bool)
      requires b in arrays && BoxesOk(arrays)
      modifies this
      ensures Outcome(arrays, ok, clock) == RecreateOutcome(old(arrays), b, v, link, pool, script, old(clock))
    {
      var volume := GetVolume(b, v);
      if !volume.Answer? { return false; }
      ok := AddPair(b, v, link, pool);
    }
  }

  /** With unique names, looking a replica up by name has one possible answer. */
  lemma SameReplica(box: Box, i: int, name: string)
    requires BoxOk(box) && ReplicaOf(box, i, name)
    ensures ReplicaFor(box, name) == Some(i)
  {
    var k := ReplicaFor(box, name).value;
    assert HalfOk(box, box.replicas[i]) && HalfOk(box, box.replicas[k]);
  }
}
