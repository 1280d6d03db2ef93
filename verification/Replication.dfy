/** Replication of volumes between arrays: Enable, Disable, Promote and Demote.

    A replicated pair is two halves kept by two arrays. The driver has no transaction over them:
    turning a pair around is a deletion and a creation, and each call may be lost.
  */
module Replication {
  import opened Basics
  import opened Faults

  datatype Role = SOURCE | TARGET

  datatype Replica = Replica(role: Role, name: string, volume: int, peerVolume: int, peer: int,
                             link: int, localPool: int, remotePool: int)

  /** `remote` is the remote system's name, `remoteLink` the id of the same link over there. */
  datatype Link = Link(id: int, name: string, remote: string, remoteLink: int, up: bool)

  datatype Volume = Volume(name: string, pool: int)

  datatype Box = Box(volumes: map<int, Volume>, nextVolume: int, pools: map<string, int>, links: seq<Link>,
                     replicas: map<int, Replica>, nextReplica: int)

  type World = map<string, Box>

  function FindLink(links: seq<Link>, id: int): Option<Link> {
    if links == [] then None
    else if links[0].id == id then Some(links[0])
    else FindLink(links[1..], id)
  }

  predicate Replicated(box: Box, v: int) {
    exists i :: i in box.replicas && box.replicas[i].volume == v
  }

  ghost predicate Named(box: Box, v: int, name: string) {
    v in box.volumes && box.volumes[v].name == name
  }

  ghost predicate NameTaken(box: Box, name: string) {
    exists v :: Named(box, v, name)
  }

  ghost function VolumeOf(box: Box, name: string): (v: int)
    requires NameTaken(box, name)
    ensures Named(box, v, name)
  {
    var v :| Named(box, v, name);
    v
  }

  ghost predicate ReplicaOf(box: Box, i: int, name: string) {
    i in box.replicas && box.replicas[i].name == name
  }

  /** GetReplicaForLocalEntityName. */
  ghost function ReplicaFor(box: Box, name: string): (i: Option<int>)
    ensures i.Some? ==> ReplicaOf(box, i.value, name)
    ensures i.None? ==> forall k :: !ReplicaOf(box, k, name)
  {
    if k :| ReplicaOf(box, k, name) then Some(k) else None
  }

  // ----- what the arrays do -----

  function AddReplica(box: Box, r: Replica): Box {
    box.(replicas := box.replicas[box.nextReplica := r], nextReplica := box.nextReplica + 1)
  }

  /** Both halves of a new pair: a SOURCE at `b`, a TARGET over link `l`. */
  function Join(w: World, b: string, v: int, l: Link, u: int): World
    requires b in w && l.remote in w && v in w[b].volumes && u in w[l.remote].volumes
  {
    var here, there := w[b], w[l.remote];
    var name, lp, rp := here.volumes[v].name, here.volumes[v].pool, there.volumes[u].pool;
    var source := Replica(SOURCE, name, v, u, there.nextReplica, l.id, lp, rp);
    var target := Replica(TARGET, name, u, v, here.nextReplica, l.remoteLink, rp, lp);
    w[b := AddReplica(here, source)][l.remote := AddReplica(there, target)]
  }

  function AddVolume(box: Box, v: Volume): Box {
    box.(volumes := box.volumes[box.nextVolume := v], nextVolume := box.nextVolume + 1)
  }

  /** Creating a replica: refused if either side is paired already or an existing volume of
      that name lies in another pool; a missing remote volume is created in `pool`. */
  ghost function CreateReplica(w: World, b: string, v: int, link: int, pool: int): Option<World> {
    if b !in w || v !in w[b].volumes || Replicated(w[b], v) then None
    else
      match FindLink(w[b].links, link)
      case None => None
      case Some(l) =>
        if l.remote !in w || l.remote == b then None
        else
          var there, name := w[l.remote], w[b].volumes[v].name;
          if !NameTaken(there, name) then
            Some(Join(w[l.remote := AddVolume(there, Volume(name, pool))], b, v, l, there.nextVolume))
          else
            var u := VolumeOf(there, name);
            if Replicated(there, u) || there.volumes[u].pool != pool then None
            else Some(Join(w, b, v, l, u))
  }

  function DropReplica(box: Box, i: int): Box {
    box.(replicas := box.replicas - {i})
  }

  /** Deleting a replica removes both halves. */
  function DeleteReplica(w: World, b: string, i: int): World
    requires b in w && i in w[b].replicas
  {
    var r := w[b].replicas[i];
    var w1 := w[b := DropReplica(w[b], i)];
    match FindLink(w[b].links, r.link)
    case None => w1
    case Some(l) => if l.remote in w1 then w1[l.remote := DropReplica(w1[l.remote], r.peer)] else w1
  }

  // ----- what holds between any two calls -----

  ghost predicate LinkOk(w: World, b: string, l: Link)
    requires b in w
  {
    l.id != 0 && FindLink(w[b].links, l.id) == Some(l) && l.remote in w && l.remote != b &&
    match FindLink(w[l.remote].links, l.remoteLink)
    case None => false
    case Some(back) => back.remote == b && back.remoteLink == l.id
  }

  ghost predicate LinksOk(w: World) {
    forall b, l {:trigger LinkOk(w, b, l)} :: b in w && l in w[b].links ==> LinkOk(w, b, l)
  }

  ghost predicate BoxOk(box: Box) {
    (forall u, v :: u in box.volumes && v in box.volumes && box.volumes[u].name == box.volumes[v].name ==> u == v) &&
    (forall v :: v in box.volumes ==> v < box.nextVolume) &&
    (forall i :: i in box.replicas ==> i < box.nextReplica && HalfOk(box, box.replicas[i])) &&
    (forall i, j :: i in box.replicas && j in box.replicas && box.replicas[i].volume == box.replicas[j].volume ==> i == j)
  }

  ghost predicate HalfOk(box: Box, r: Replica) {
    r.volume in box.volumes && box.volumes[r.volume] == Volume(r.name, r.localPool)
  }

  /** Replica `i` of array `b` has its other half, with the opposite role, at the other end of its link. */
  ghost predicate PairOk(w: World, b: string, i: int)
    requires b in w && i in w[b].replicas
  {
    var r := w[b].replicas[i];
    match FindLink(w[b].links, r.link)
    case None => false
    case Some(l) =>
      l in w[b].links && l.remote in w && r.peer in w[l.remote].replicas && Mirror(w[l.remote].replicas[r.peer], r, i, l)
  }

  ghost predicate Mirror(p: Replica, r: Replica, i: int, l: Link) {
    p.peer == i && p.role != r.role && p.name == r.name && p.link == l.remoteLink &&
    p.volume == r.peerVolume && p.peerVolume == r.volume && p.localPool == r.remotePool && p.remotePool == r.localPool
  }

  ghost predicate PairsOk(w: World) {
    forall b, i {:trigger PairOk(w, b, i)} :: b in w && i in w[b].replicas ==> PairOk(w, b, i)
  }

  ghost predicate BoxesOk(w: World) {
    forall b {:trigger BoxOk(w[b])} :: b in w ==> BoxOk(w[b])
  }

  ghost predicate Good(w: World) {
    LinksOk(w) && BoxesOk(w) && PairsOk(w)
  }

  lemma {:induction false} FindLinkMember(links: seq<Link>, id: int)
    ensures FindLink(links, id).Some? ==> FindLink(links, id).value in links && FindLink(links, id).value.id == id
    decreases |links|
  {
    if links != [] && links[0].id != id { FindLinkMember(links[1..], id); }
  }

  ghost predicate SameLinks(w: World, w': World) {
    w'.Keys == w.Keys && forall c :: c in w ==> w'[c].links == w[c].links
  }

  lemma LinksCarry(w: World, w': World)
    requires LinksOk(w) && SameLinks(w, w')
    ensures LinksOk(w')
  {
    forall c, l | c in w' && l in w'[c].links ensures LinkOk(w', c, l) {
      assert LinkOk(w, c, l);
    }
  }

  /** A pair both of whose halves are still there is still whole. */
  lemma PairCarries(w: World, w': World, c: string, i: int)
    requires SameLinks(w, w') && c in w && i in w[c].replicas && PairOk(w, c, i)
    requires i in w'[c].replicas && w'[c].replicas[i] == w[c].replicas[i]
    requires var r := w[c].replicas[i];
             var there := FindLink(w[c].links, r.link).value.remote;
             r.peer in w'[there].replicas && w'[there].replicas[r.peer] == w[there].replicas[r.peer]
    ensures PairOk(w', c, i)
  {
  }

  lemma AddVolumeKeepsBox(box: Box, v: Volume)
    requires BoxOk(box) && !NameTaken(box, v.name)
    ensures BoxOk(AddVolume(box, v))
  {
    assert forall u :: u in box.volumes ==> Named(box, u, box.volumes[u].name);
  }

  lemma AddVolumeKeepsGood(w: World, b: string, v: Volume)
    requires Good(w) && b in w && !NameTaken(w[b], v.name)
    ensures Good(w[b := AddVolume(w[b], v)])
  {
    var w' := w[b := AddVolume(w[b], v)];
    AddVolumeKeepsBox(w[b], v);
    LinksCarry(w, w');
    forall c, i | c in w' && i in w'[c].replicas ensures PairOk(w', c, i) {
      PairCarries(w, w', c, i);
    }
  }

  lemma AddReplicaKeepsBox(box: Box, r: Replica)
    requires BoxOk(box) && HalfOk(box, r) && !Replicated(box, r.volume)
    ensures BoxOk(AddReplica(box, r))
  {
  }

  lemma JoinKeepsGood(w: World, b: string, v: int, l: Link, u: int)
    requires Good(w) && b in w && l in w[b].links && v in w[b].volumes && l.remote in w && u in w[l.remote].volumes
    requires w[l.remote].volumes[u].name == w[b].volumes[v].name
    requires !Replicated(w[b], v) && !Replicated(w[l.remote], u)
    ensures Good(Join(w, b, v, l, u))
  {
    var w' := Join(w, b, v, l, u);
    JoinKeepsBoxes(w, b, v, l, u);
    LinksCarry(w, w');
    JoinPairs(w, b, v, l, u);
    forall c, i | c in w' && i in w'[c].replicas ensures PairOk(w', c, i) {
      if c in w && i in w[c].replicas {
        assert PairOk(w, c, i);
        PairCarries(w, w', c, i);
      }
    }
  }

  lemma JoinKeepsBoxes(w: World, b: string, v: int, l: Link, u: int)
    requires Good(w) && b in w && l in w[b].links && v in w[b].volumes && l.remote in w && u in w[l.remote].volumes
    requires w[l.remote].volumes[u].name == w[b].volumes[v].name
    requires !Replicated(w[b], v) && !Replicated(w[l.remote], u)
    ensures var w' := Join(w, b, v, l, u);
            SameLinks(w, w') && BoxesOk(w') &&
            (forall c, i :: c in w && i in w[c].replicas ==> i in w'[c].replicas && w'[c].replicas[i] == w[c].replicas[i])
  {
    var w' := Join(w, b, v, l, u);
    assert LinkOk(w, b, l);
    AddReplicaKeepsBox(w[b], w'[b].replicas[w[b].nextReplica]);
    AddReplicaKeepsBox(w[l.remote], w'[l.remote].replicas[w[l.remote].nextReplica]);
  }

  lemma JoinPairs(w: World, b: string, v: int, l: Link, u: int)
    requires LinksOk(w) && b in w && l in w[b].links && v in w[b].volumes && l.remote in w && u in w[l.remote].volumes
    requires w[l.remote].volumes[u].name == w[b].volumes[v].name
    ensures var w' := Join(w, b, v, l, u);
            w[b].nextReplica in w'[b].replicas && PairOk(w', b, w[b].nextReplica) &&
            w[l.remote].nextReplica in w'[l.remote].replicas && PairOk(w', l.remote, w[l.remote].nextReplica)
  {
    assert LinkOk(w, b, l);
    FindLinkMember(w[l.remote].links, l.remoteLink);
  }

  /** Creating a replica keeps every pair whole. */
  lemma CreateKeepsGood(w: World, b: string, v: int, link: int, pool: int)
    requires Good(w) && CreateReplica(w, b, v, link, pool).Some?
    ensures Good(CreateReplica(w, b, v, link, pool).value)
  {
    FindLinkMember(w[b].links, link);
    var l := FindLink(w[b].links, link).value;
    var there, name := w[l.remote], w[b].volumes[v].name;
    if NameTaken(there, name) {
      JoinKeepsGood(w, b, v, l, VolumeOf(there, name));
    } else {
      var w1 := w[l.remote := AddVolume(there, Volume(name, pool))];
      AddVolumeKeepsGood(w, l.remote, Volume(name, pool));
      assert w1[b] == w[b];
      assert BoxOk(w[l.remote]);
      assert forall i :: i in there.replicas ==> HalfOk(there, there.replicas[i]);
      assert !Replicated(w1[l.remote], there.nextVolume);
      JoinKeepsGood(w1, b, v, l, there.nextVolume);
    }
  }

  /** The two halves of a pair point at each other and at nobody else. */
  lemma HalvesBelongTogether(w: World, b: string, i: int, c: string, j: int)
    requires Good(w) && b in w && i in w[b].replicas && c in w && j in w[c].replicas
    requires FindLink(w[c].links, w[c].replicas[j].link).Some?
    requires FindLink(w[c].links, w[c].replicas[j].link).value.remote == b && w[c].replicas[j].peer == i
    ensures FindLink(w[b].links, w[b].replicas[i].link).Some?
    ensures FindLink(w[b].links, w[b].replicas[i].link).value.remote == c && w[b].replicas[i].peer == j
  {
    assert PairOk(w, c, j);
    assert LinkOk(w, c, FindLink(w[c].links, w[c].replicas[j].link).value);
  }

  lemma DropKeepsBox(box: Box, i: int)
    requires BoxOk(box)
    ensures BoxOk(DropReplica(box, i))
  {
  }

  lemma DeleteKeepsBoxes(w: World, b: string, i: int)
    requires Good(w) && b in w && i in w[b].replicas
    ensures BoxesOk(DeleteReplica(w, b, i)) && SameLinks(w, DeleteReplica(w, b, i))
  {
    assert PairOk(w, b, i);
    var w', r := DeleteReplica(w, b, i), w[b].replicas[i];
    var l := FindLink(w[b].links, r.link).value;
    assert LinkOk(w, b, l);
    forall c | c in w' ensures BoxOk(w'[c]) {
      assert BoxOk(w[c]);
      if c == b {
        DropKeepsBox(w[b], i);
      } else if c == l.remote {
        DropKeepsBox(w[c], r.peer);
      }
    }
  }

  /** Deleting a replica takes exactly its pair away and keeps every other pair whole. */
  lemma DeleteKeepsGood(w: World, b: string, i: int)
    requires Good(w) && b in w && i in w[b].replicas
    ensures Good(DeleteReplica(w, b, i)) && SameLinks(w, DeleteReplica(w, b, i))
  {
    var w' := DeleteReplica(w, b, i);
    DeleteKeepsBoxes(w, b, i);
    LinksCarry(w, w');
    forall c, j | c in w' && j in w'[c].replicas ensures PairOk(w', c, j) {
      OtherPairsStay(w, b, i, c, j);
    }
  }

  lemma OtherPairsStay(w: World, b: string, i: int, c: string, j: int)
    requires Good(w) && b in w && i in w[b].replicas && c in w && SameLinks(w, DeleteReplica(w, b, i))
    requires j in DeleteReplica(w, b, i)[c].replicas
    ensures PairOk(DeleteReplica(w, b, i), c, j)
  {
    var w', r := DeleteReplica(w, b, i), w[b].replicas[i];
    assert PairOk(w, b, i) && PairOk(w, c, j);
    var l := FindLink(w[b].links, r.link).value;
    assert LinkOk(w, b, l);
    var q, m := w[c].replicas[j], FindLink(w[c].links, w[c].replicas[j].link).value;
    HalvesBelongTogether(w, m.remote, q.peer, c, j);
    HalvesBelongTogether(w, l.remote, r.peer, b, i);
    assert m.remote == b ==> q.peer != i;
    assert m.remote == l.remote ==> q.peer != r.peer;
    PairCarries(w, w', c, j);
  }

  // ----- the operations -----

  datatype Outcome = Outcome(world: World, ok: bool, clock: nat)

  /** The link the driver picks for a remote system: the last one listed. */
  function LastLinkTo(links: seq<Link>, remote: string): Option<Link> {
    if links == [] then None
    else if links[|links| - 1].remote == remote then Some(links[|links| - 1])
    else LastLinkTo(links[..|links| - 1], remote)
  }

  function FirstLinkNamed(links: seq<Link>, name: string): Option<Link> {
    if links == [] then None
    else if links[0].name == name then Some(links[0])
    else FirstLinkNamed(links[1..], name)
  }

  /** `l` stands at some index, and no earlier link has that name. */
  ghost predicate IsFirstNamed(links: seq<Link>, name: string, l: Link) {
    exists k :: 0 <= k < |links| && links[k] == l && l.name == name && forall j :: 0 <= j < k ==> links[j].name != name
  }

  /** `l` stands at some index, and no later link leads to that system. */
  ghost predicate IsLastTo(links: seq<Link>, remote: string, l: Link) {
    exists k :: 0 <= k < |links| && links[k] == l && l.remote == remote && forall j :: k < j < |links| ==> links[j].remote != remote
  }

  lemma {:induction false} FirstLinkNamedIs(links: seq<Link>, name: string)
    ensures forall l :: FirstLinkNamed(links, name) == Some(l) <==> IsFirstNamed(links, name, l)
    ensures FirstLinkNamed(links, name) == None <==> forall k :: 0 <= k < |links| ==> links[k].name != name
    decreases |links|
  {
    if links != [] {
      var rest := links[1..];
      FirstLinkNamedIs(rest, name);
      assert forall k :: 0 <= k < |rest| ==> rest[k] == links[k + 1];
      forall l ensures FirstLinkNamed(links, name) == Some(l) <==> IsFirstNamed(links, name, l) {
        if links[0].name == name {
          assert links[0] == l ==> IsFirstNamed(links, name, l);
        } else {
          FirstNamedShift(links, name, l);
        }
      }
      assert links == [links[0]] + rest;
    }
  }

  lemma FirstNamedShift(links: seq<Link>, name: string, l: Link)
    requires links != [] && links[0].name != name
    ensures IsFirstNamed(links, name, l) <==> IsFirstNamed(links[1..], name, l)
  {
    var rest := links[1..];
    if k :| 0 <= k < |links| && links[k] == l && l.name == name && forall j :: 0 <= j < k ==> links[j].name != name {
      assert rest[k - 1] == l && forall j :: 0 <= j < k - 1 ==> rest[j] == links[j + 1];
    }
    if k :| 0 <= k < |rest| && rest[k] == l && l.name == name && forall j :: 0 <= j < k ==> rest[j].name != name {
      assert links[k + 1] == l && forall j :: 0 < j < k + 1 ==> links[j] == rest[j - 1];
    }
  }

  lemma {:induction false} LastLinkToIs(links: seq<Link>, remote: string)
    ensures forall l :: LastLinkTo(links, remote) == Some(l) <==> IsLastTo(links, remote, l)
    ensures LastLinkTo(links, remote) == None <==> forall k :: 0 <= k < |links| ==> links[k].remote != remote
    decreases |links|
  {
    if links != [] {
      var n := |links| - 1;
      var rest := links[..n];
      LastLinkToIs(rest, remote);
      assert forall k :: 0 <= k < n ==> rest[k] == links[k];
      forall l ensures LastLinkTo(links, remote) == Some(l) <==> IsLastTo(links, remote, l) {
        if links[n].remote == remote {
          assert links[n] == l ==> IsLastTo(links, remote, l);
        } else {
          assert IsLastTo(rest, remote, l) <==> IsLastTo(links, remote, l);
        }
      }
    }
  }

  ghost function CreateOutcome(w: World, b: string, v: int, link: int, pool: int, f: Script, t: nat): Outcome {
    var created := CreateReplica(w, b, v, link, pool);
    if !f.call(t) || created.None? then Outcome(w, false, t + 1) else Outcome(created.value, true, t + 1)
  }

  /** The pool name is looked up on the local array although it names a pool of the remote one. */
  ghost function Enable(w: World, b: string, v: int, remote: string, poolName: string, f: Script, t: nat): Outcome
    requires b in w
  {
    var box := w[b];
    if !f.call(t) || v !in box.volumes then Outcome(w, false, t + 1)
    else if !f.call(t + 1) || poolName !in box.pools then Outcome(w, false, t + 2)
    else
      var link := LastLinkTo(box.links, remote);
      if !f.call(t + 2) || link.None? || link.value.id == 0 || !link.value.up then Outcome(w, false, t + 3)
      else if !f.call(t + 3) || Replicated(box, v) then Outcome(w, false, t + 4)
      else CreateOutcome(w, b, v, link.value.id, box.pools[poolName], f, t + 4)
  }

  ghost function Disable(w: World, b: string, v: int, f: Script, t: nat): Outcome
    requires b in w
  {
    var box := w[b];
    if !f.call(t) || v !in box.volumes then Outcome(w, false, t + 1)
    else
      var replica := ReplicaFor(box, box.volumes[v].name);
      if !f.call(t + 1) || replica.None? then Outcome(w, false, t + 2)
      else if !f.call(t + 2) then Outcome(w, false, t + 3)
      else Outcome(DeleteReplica(w, b, replica.value), true, t + 3)
  }

  ghost function Promote(w: World, b: string, v: int, f: Script, t: nat): Outcome
    requires b in w
  {
    var box := w[b];
    if !f.call(t) then Outcome(w, false, t + 1)
    else if !f.call(t + 1) || v !in box.volumes then Outcome(w, false, t + 2)
    else
      var name := box.volumes[v].name;
      var replica := ReplicaFor(box, name);
      if !f.call(t + 2) then Outcome(w, false, t + 3)
      else if replica.None? || box.replicas[replica.value].role == SOURCE then Outcome(w, true, t + 3)
      else PromoteTarget(w, b, v, replica.value, f, t + 3)
  }

  /** The part of Promote that takes the pair of the TARGET half `i` away and creates it again from here. */
  ghost function PromoteTarget(w: World, b: string, v: int, i: int, f: Script, t: nat): Outcome
    requires b in w && v in w[b].volumes && i in w[b].replicas
  {
    var box, r := w[b], w[b].replicas[i];
    var link := FindLink(box.links, r.link);
    if !f.call(t) || link.None? then Outcome(w, false, t + 1)
    else if !f.call(t + 1) || link.value.remote !in w then Outcome(w, false, t + 2)
    else
      var remote := link.value.remote;
      var source := ReplicaFor(w[remote], box.volumes[v].name);
      if !f.call(t + 2) || source.None? then Outcome(w, false, t + 3)
      else if !f.call(t + 3) then Outcome(w, false, t + 4)
      else
        var w1 := DeleteReplica(w, remote, source.value);
        var back := FirstLinkNamed(box.links, remote);
        if back.None? || back.value.id == 0 then Outcome(w1, false, t + 4)
        else CreateOutcome(w1, b, v, back.value.id, r.remotePool, f, t + 4)
  }

  ghost function Demote(w: World, b: string, v: int, f: Script, t: nat): Outcome
    requires b in w
  {
    var box := w[b];
    if !f.call(t) || v !in box.volumes then Outcome(w, false, t + 1)
    else
      var replica := ReplicaFor(box, box.volumes[v].name);
      if !f.call(t + 1) then Outcome(w, false, t + 2)
      else if replica.None? || box.replicas[replica.value].role == TARGET then Outcome(w, true, t + 2)
      else DemoteSource(w, b, replica.value, f, t + 2)
  }

  /** The part of Demote that takes the pair of the SOURCE half `i` away and creates it again from the other side. */
  ghost function DemoteSource(w: World, b: string, i: int, f: Script, t: nat): Outcome
    requires b in w && i in w[b].replicas
  {
    var r := w[b].replicas[i];
    var link := FindLink(w[b].links, r.link);
    if !f.call(t) || link.None? then Outcome(w, false, t + 1)
    else if !f.call(t + 1) || link.value.remote !in w then Outcome(w, false, t + 2)
    else if !f.call(t + 2) then Outcome(w, false, t + 3)
    else
      RecreateOutcome(DeleteReplica(w, b, i), link.value.remote, r.peerVolume, link.value.remoteLink, r.localPool, f, t + 3)
  }

  ghost function RecreateOutcome(w: World, b: string, v: int, link: int, pool: int, f: Script, t: nat): Outcome
    requires b in w
  {
    if !f.call(t) || v !in w[b].volumes then Outcome(w, false, t + 1)
    else CreateOutcome(w, b, v, link, pool, f, t + 1)
  }

  // ----- safety over every run -----

  datatype Op =
    | EnableOp(volume: int, remote: string, pool: string)
    | DisableOp(volume: int)
    | PromoteOp(volume: int)
    | DemoteOp(volume: int)

  ghost function Step(w: World, b: string, op: Op, f: Script, t: nat): Outcome {
    if b !in w then Outcome(w, false, t)
    else
      match op
      case EnableOp(v, remote, pool) => Enable(w, b, v, remote, pool, f, t)
      case DisableOp(v) => Disable(w, b, v, f, t)
      case PromoteOp(v) => Promote(w, b, v, f, t)
      case DemoteOp(v) => Demote(w, b, v, f, t)
  }

  lemma CreateOutcomeKeepsGood(w: World, b: string, v: int, link: int, pool: int, f: Script, t: nat)
    requires Good(w)
    ensures Good(CreateOutcome(w, b, v, link, pool, f, t).world)
    ensures CreateOutcome(w, b, v, link, pool, f, t).world.Keys == w.Keys
  {
    if CreateReplica(w, b, v, link, pool).Some? {
      CreateKeepsGood(w, b, v, link, pool);
    }
  }

  lemma OtherEnd(w: World, b: string, i: int)
    requires Good(w) && b in w && i in w[b].replicas
    ensures var link := FindLink(w[b].links, w[b].replicas[i].link); link.Some? && link.value.remote in w
  {
    assert PairOk(w, b, i);
  }

  lemma RecreateKeepsGood(w: World, b: string, v: int, link: int, pool: int, f: Script, t: nat)
    requires Good(w) && b in w
    ensures var w' := RecreateOutcome(w, b, v, link, pool, f, t).world; Good(w') && w'.Keys == w.Keys
  {
    hide Good, CreateOutcome;
    CreateOutcomeKeepsGood(w, b, v, link, pool, f, t + 1);
  }

  lemma DemoteSourceKeepsGood(w: World, b: string, i: int, f: Script, t: nat)
    requires Good(w) && b in w && i in w[b].replicas
    ensures var w' := DemoteSource(w, b, i, f, t).world; Good(w') && w'.Keys == w.Keys
  {
    hide Good, RecreateOutcome, DeleteReplica, FindLink;
    OtherEnd(w, b, i);
    var r := w[b].replicas[i];
    var link := FindLink(w[b].links, r.link).value;
    var w1 := DeleteReplica(w, b, i);
    DeleteKeepsGood(w, b, i);
    RecreateKeepsGood(w1, link.remote, r.peerVolume, link.remoteLink, r.localPool, f, t + 3);
  }

  lemma PromoteTargetKeepsGood(w: World, b: string, v: int, i: int, f: Script, t: nat)
    requires Good(w) && b in w && v in w[b].volumes && i in w[b].replicas
    ensures var w' := PromoteTarget(w, b, v, i, f, t).world; Good(w') && w'.Keys == w.Keys
  {
    hide Good, CreateOutcome, DeleteReplica, FindLink;
    OtherEnd(w, b, i);
    var box, r := w[b], w[b].replicas[i];
    var remote := FindLink(box.links, r.link).value.remote;
    var source, back := ReplicaFor(w[remote], box.volumes[v].name), FirstLinkNamed(box.links, remote);
    if source.Some? {
      var w1 := DeleteReplica(w, remote, source.value);
      DeleteKeepsGood(w, remote, source.value);
      if back.Some? {
        CreateOutcomeKeepsGood(w1, b, v, back.value.id, r.remotePool, f, t + 4);
      }
    }
  }

  /** Wherever an operation stops, every half has its other half with the opposite role, and a volume
      has at most one half per array. */
  lemma StepKeepsGood(w: World, b: string, op: Op, f: Script, t: nat)
    requires Good(w)
    ensures var w' := Step(w, b, op, f, t).world; Good(w') && w'.Keys == w.Keys
  {
    var v := op.volume;
    if b in w && v in w[b].volumes {
      var box := w[b];
      match op
      case EnableOp(_, remote, pool) =>
        var link := LastLinkTo(box.links, remote);
        if link.Some? && pool in box.pools {
          CreateOutcomeKeepsGood(w, b, v, link.value.id, box.pools[pool], f, t + 4);
        }
      case DisableOp(_) =>
        var replica := ReplicaFor(box, box.volumes[v].name);
        if replica.Some? { DeleteKeepsGood(w, b, replica.value); }
      case PromoteOp(_) =>
        var replica := ReplicaFor(box, box.volumes[v].name);
        if replica.Some? { PromoteTargetKeepsGood(w, b, v, replica.value, f, t + 3); }
      case DemoteOp(_) =>
        var replica := ReplicaFor(box, box.volumes[v].name);
        if replica.Some? { DemoteSourceKeepsGood(w, b, replica.value, f, t + 2); }
    }
  }

  ghost function Run(w: World, ops: seq<(string, Op)>, f: Script, t: nat): World
    decreases |ops|
  {
    if ops == [] then w
    else
      var o := Step(w, ops[0].0, ops[0].1, f, t);
      Run(o.world, ops[1..], f, o.clock)
  }

  /** Any run of operations on any arrays, with calls lost anywhere, keeps all pairs whole. */
  lemma {:induction false} RunKeepsGood(w: World, ops: seq<(string, Op)>, f: Script, t: nat)
    requires Good(w)
    ensures Good(Run(w, ops, f, t)) && Run(w, ops, f, t).Keys == w.Keys
    decreases |ops|
  {
    if ops != [] {
      var o := Step(w, ops[0].0, ops[0].1, f, t);
      StepKeepsGood(w, ops[0].0, ops[0].1, f, t);
      RunKeepsGood(o.world, ops[1..], f, o.clock);
    }
  }

  /** Replica `k` of this array claims replica `i` of array `b` as its other half. */
  ghost predicate Claims(box: Box, k: int, b: string, i: int)
    requires k in box.replicas
  {
    var link := FindLink(box.links, box.replicas[k].link);
    box.replicas[k].peer == i && link.Some? && link.value.remote == b
  }

  /** What a good world means for one pair: exactly one of its two halves is the SOURCE, and no third
      replica anywhere claims either half. */
  lemma OneSourcePerPair(w: World, b: string, i: int)
    requires Good(w) && b in w && i in w[b].replicas
    ensures var r := w[b].replicas[i];
            FindLink(w[b].links, r.link).Some? &&
            var c := FindLink(w[b].links, r.link).value.remote;
            c in w && c != b && r.peer in w[c].replicas &&
            (r.role == SOURCE <==> w[c].replicas[r.peer].role == TARGET) &&
            (forall k :: k in w[b].replicas && w[b].replicas[k].volume == r.volume ==> k == i) &&
            (forall k :: k in w[c].replicas && w[c].replicas[k].volume == r.peerVolume ==> k == r.peer) &&
            forall d, k :: d in w && k in w[d].replicas && Claims(w[d], k, b, i) ==> d == c && k == r.peer
  {
    assert PairOk(w, b, i);
    var r := w[b].replicas[i];
    var l := FindLink(w[b].links, r.link).value;
    assert LinkOk(w, b, l) && BoxOk(w[b]) && BoxOk(w[l.remote]);
    forall d, k | d in w && k in w[d].replicas && Claims(w[d], k, b, i)
      ensures d == l.remote && k == r.peer
    {
      HalvesBelongTogether(w, b, i, d, k);
    }
  }
}
