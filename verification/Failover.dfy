/** Turning a replicated pair around: what Demote and Promote do to the roles, the links and the pools. */
module Failover {
  import opened Basics
  import opened Faults
  import opened Replication

  /** A replica without the ids the arrays give out. */
  datatype Half = Half(role: Role, name: string, peerVolume: int, link: int, localPool: int, remotePool: int)

  function HalfOf(r: Replica): Half {
    Half(r.role, r.name, r.peerVolume, r.link, r.localPool, r.remotePool)
  }

  function Flip(h: Half): Half {
    h.(role := if h.role == SOURCE then TARGET else SOURCE)
  }

  /** Only the volume's own id, which Shows names, and the other half's are left out. */
  lemma SameHalf(a: Replica, b: Replica)
    ensures HalfOf(a) == HalfOf(b) <==> b == a.(peer := b.peer, volume := b.volume)
  {
  }

  /** Array `box` has a replica of volume `x` that looks like `h`. */
  ghost predicate Shows(box: Box, x: int, h: Half) {
    exists k :: k in box.replicas && box.replicas[k].volume == x && HalfOf(box.replicas[k]) == h
  }

  ghost predicate SameVolumes(w: World, w': World) {
    SameLinks(w, w') && forall c :: c in w ==> w'[c].volumes == w[c].volumes
  }

  ghost predicate SameView(w: World, w': World) {
    SameVolumes(w, w') &&
    forall c, x, h :: c in w ==> (Shows(w'[c], x, h) <==> Shows(w[c], x, h))
  }

  /** `w'` is `w` with the roles of volume `v` of `b` and volume `u` of `c` exchanged and nothing else changed. */
  ghost predicate Turned(w: World, w': World, b: string, v: int, c: string, u: int) {
    SameVolumes(w, w') &&
    forall d, x, h :: d in w ==>
      (Shows(w'[d], x, h) <==> Shows(w[d], x, if (d == b && x == v) || (d == c && x == u) then Flip(h) else h))
  }

  lemma TurnedEitherWay(w: World, w': World, p: Pair)
    requires p.b != p.c
    ensures Turned(w, w', p.b, p.v, p.c, p.u) <==> Turned(w, w', p.c, p.u, p.b, p.v)
  {
  }

  lemma TurnedTwice(w: World, w': World, w'': World, b: string, v: int, c: string, u: int)
    requires Turned(w, w', b, v, c, u) && Turned(w', w'', c, u, b, v)
    ensures SameView(w, w'')
  {
    assert forall h :: Flip(Flip(h)) == h;
  }

  // ----- looking up replicas by name -----

  /** Names are unique, so the replica found for a volume's name is the volume's. */
  lemma FoundByName(box: Box, v: int, i: int)
    requires BoxOk(box) && v in box.volumes && i in box.replicas && box.replicas[i].volume == v
    ensures ReplicaFor(box, box.volumes[v].name) == Some(i)
  {
    assert HalfOk(box, box.replicas[i]);
    var name := box.volumes[v].name;
    assert ReplicaOf(box, i, name);
    var k := ReplicaFor(box, name).value;
    assert HalfOk(box, box.replicas[k]);
  }

  lemma NotFoundByName(box: Box, v: int)
    requires BoxOk(box) && v in box.volumes && !Replicated(box, v)
    ensures ReplicaFor(box, box.volumes[v].name) == None
  {
    assert forall k :: k in box.replicas ==> HalfOk(box, box.replicas[k]);
    assert forall k :: !ReplicaOf(box, k, box.volumes[v].name);
  }

  // ----- one turn -----

  /** The pair of replica `i` of array `b`, seen from `b`. */
  datatype Pair = Pair(b: string, i: int, c: string, j: int, v: int, u: int, l: Link, back: Link)

  /** The names used for the parts of a pair in the lemmas below. */
  ghost predicate IsPair(w: World, p: Pair) {
    p.b in w && p.i in w[p.b].replicas && p.c in w && p.j in w[p.c].replicas && p.b != p.c &&
    var r, q := w[p.b].replicas[p.i], w[p.c].replicas[p.j];
    Mirror(q, r, p.i, p.l) && r.peer == p.j && r.volume == p.v && q.volume == p.u &&
    FindLink(w[p.b].links, r.link) == Some(p.l) && p.l.remote == p.c && p.l.id == r.link && p.l in w[p.b].links &&
    FindLink(w[p.c].links, p.l.remoteLink) == Some(p.back) && p.back.remote == p.b && p.back.id == p.l.remoteLink &&
    p.back.remoteLink == p.l.id && p.back in w[p.c].links
  }

  lemma PairOf(w: World, b: string, i: int) returns (p: Pair)
    requires Good(w) && b in w && i in w[b].replicas
    ensures IsPair(w, p) && p.b == b && p.i == i
  {
    assert PairOk(w, b, i);
    var r := w[b].replicas[i];
    FindLinkMember(w[b].links, r.link);
    var l := FindLink(w[b].links, r.link).value;
    assert LinkOk(w, b, l);
    FindLinkMember(w[l.remote].links, l.remoteLink);
    p := Pair(b, i, l.remote, r.peer, r.volume, w[l.remote].replicas[r.peer].volume, l, FindLink(w[l.remote].links, l.remoteLink).value);
  }

  function Mirrored(p: Pair): Pair {
    Pair(p.c, p.j, p.b, p.i, p.u, p.v, p.back, p.l)
  }

  lemma MirroredIsPair(w: World, p: Pair)
    requires IsPair(w, p)
    ensures IsPair(w, Mirrored(p))
  {
  }

  /** The pair taken away and put back with its SOURCE at `p.c`. */
  function Turn(w: World, p: Pair): World
    requires p.b in w && p.i in w[p.b].replicas && p.c in w && p.back.remote == p.b
    requires p.v in w[p.b].volumes && p.u in w[p.c].volumes
  {
    Join(Split(w, p), p.c, p.u, p.back, p.v)
  }

  /** The pair taken away: both halves, and nothing else. */
  function Split(w: World, p: Pair): World
    requires p.b in w && p.c in w
  {
    w[p.b := DropReplica(w[p.b], p.i)][p.c := DropReplica(w[p.c], p.j)]
  }

  ghost predicate Unpaired(w: World, p: Pair) {
    p.b in w && p.c in w && !Replicated(w[p.b], p.v) && !Replicated(w[p.c], p.u)
  }

  /** Deleting either half splits the pair. */
  lemma DeleteSplits(w: World, p: Pair)
    requires IsPair(w, p)
    ensures DeleteReplica(w, p.b, p.i) == Split(w, p) && DeleteReplica(w, p.c, p.j) == Split(w, p)
  {
    assert DeleteReplica(w, p.c, p.j) == w[p.c := DropReplica(w[p.c], p.j)][p.b := DropReplica(w[p.b], p.i)];
  }

  lemma SplitIsUnpaired(w: World, p: Pair)
    requires Good(w) && IsPair(w, p)
    ensures var w1 := Split(w, p);
            Good(w1) && SameVolumes(w, w1) && Unpaired(w1, p)
    ensures p.v in w[p.b].volumes && p.u in w[p.c].volumes && w[p.b].volumes[p.v].name == w[p.c].volumes[p.u].name
  {
    DeleteSplits(w, p);
    DeleteKeepsGood(w, p.b, p.i);
    assert BoxOk(w[p.b]) && BoxOk(w[p.c]);
    assert HalfOk(w[p.b], w[p.b].replicas[p.i]) && HalfOk(w[p.c], w[p.c].replicas[p.j]);
  }

  /** Creating the pair again from the other side, with the pool the old pair recorded, is never refused. */
  lemma CreateTurns(w: World, p: Pair)
    requires Good(w) && IsPair(w, p)
    requires p.v in w[p.b].volumes && p.u in w[p.c].volumes
    ensures CreateReplica(Split(w, p), p.c, p.u, p.back.id, w[p.b].replicas[p.i].localPool) == Some(Turn(w, p))
  {
    SplitIsUnpaired(w, p);
    var w1 := Split(w, p);
    assert BoxOk(w[p.b]) && HalfOk(w[p.b], w[p.b].replicas[p.i]);
    var name := w1[p.c].volumes[p.u].name;
    assert Named(w1[p.b], p.v, name);
    assert VolumeOf(w1[p.b], name) == p.v;
  }

  lemma TurnedAtOneEnd(box: Box, i: int, r: Replica, x: int, h: Half)
    requires BoxOk(box) && i in box.replicas && r.volume == box.replicas[i].volume
    requires HalfOf(r) == Flip(HalfOf(box.replicas[i]))
    ensures Shows(AddReplica(DropReplica(box, i), r), x, h) <==> Shows(box, x, if x == r.volume then Flip(h) else h)
  {
    var box' := AddReplica(DropReplica(box, i), r);
    var h' := if x == r.volume then Flip(h) else h;
    assert box'.replicas[box.nextReplica] == r;
    assert Flip(Flip(h)) == h;
    if Shows(box', x, h) {
      var k :| k in box'.replicas && box'.replicas[k].volume == x && HalfOf(box'.replicas[k]) == h;
      if k == box.nextReplica {
        assert Flip(HalfOf(r)) == HalfOf(box.replicas[i]);
      } else {
        assert box.replicas[k] == box'.replicas[k];
      }
    }
    if Shows(box, x, h') {
      var k :| k in box.replicas && box.replicas[k].volume == x && HalfOf(box.replicas[k]) == h';
      if k != i {
        assert k < box.nextReplica && box'.replicas[k] == box.replicas[k];
      }
    }
  }

  /** A turn exchanges the two roles and leaves links, pools, names and every other pair as they were. */
  lemma TurnTurns(w: World, p: Pair)
    requires Good(w) && IsPair(w, p) && w[p.b].replicas[p.i].role == SOURCE
    requires p.v in w[p.b].volumes && p.u in w[p.c].volumes
    ensures Turned(w, Turn(w, p), p.b, p.v, p.c, p.u)
  {
    SplitIsUnpaired(w, p);
    var w', w1 := Turn(w, p), Split(w, p);
    assert BoxOk(w[p.b]) && BoxOk(w[p.c]);
    assert HalfOk(w[p.b], w[p.b].replicas[p.i]) && HalfOk(w[p.c], w[p.c].replicas[p.j]);
    var target, source := w'[p.b].replicas[w[p.b].nextReplica], w'[p.c].replicas[w[p.c].nextReplica];
    assert w'[p.b] == AddReplica(DropReplica(w[p.b], p.i), target);
    assert w'[p.c] == AddReplica(DropReplica(w[p.c], p.j), source);
    forall d, x, h | d in w
      ensures Shows(w'[d], x, h) <==> Shows(w[d], x, if (d == p.b && x == p.v) || (d == p.c && x == p.u) then Flip(h) else h)
    {
      if d == p.b {
        TurnedAtOneEnd(w[p.b], p.i, target, x, h);
      } else if d == p.c {
        TurnedAtOneEnd(w[p.c], p.j, source, x, h);
      } else {
        assert w'[d] == w[d];
      }
    }
  }

  // ----- Demote -----

  /** Demote of a SOURCE: with its seven calls answered it turns the pair; otherwise it reports failure and stops with the pair
      split, if the first five were answered, or with the old world. */
  lemma DemoteTurns(w: World, p: Pair, f: Script, t: nat)
    requires Good(w) && IsPair(w, p) && w[p.b].replicas[p.i].role == SOURCE
    requires p.v in w[p.b].volumes && p.u in w[p.c].volumes
    ensures var o := Demote(w, p.b, p.v, f, t);
            (o.ok <==> Answered(f, t, 7)) &&
            o.world == if o.ok then Turn(w, p) else if Answered(f, t, 5) then Split(w, p) else w
  {
    assert BoxOk(w[p.b]);
    FoundByName(w[p.b], p.v, p.i);
    DemoteTail(w, p, f, t + 2);
    DemoteReachesTail(w, p.b, p.v, p.i, f, t);
    hide Good, IsPair, Demote, DemoteSource, Turn, Split;
    AnsweredFirst(f, t, 2, 5);
    AnsweredFirst(f, t, 2, 3);
  }

  lemma AnsweredFirst(f: Script, t: nat, m: nat, n: nat)
    ensures Answered(f, t, m + n) <==> Answered(f, t, m) && Answered(f, t + m, n)
  {
    if Answered(f, t, m) && Answered(f, t + m, n) {
      forall k | t <= k < t + (m + n) ensures f.call(k) {
        assert k < t + m || t + m <= k < (t + m) + n;
      }
    }
  }

  lemma DemoteReachesTail(w: World, b: string, v: int, i: int, f: Script, t: nat)
    requires b in w && v in w[b].volumes && ReplicaFor(w[b], w[b].volumes[v].name) == Some(i)
    requires i in w[b].replicas && w[b].replicas[i].role == SOURCE
    ensures var o := Demote(w, b, v, f, t);
            if Answered(f, t, 2) then o == DemoteSource(w, b, i, f, t + 2) else !o.ok && o.world == w
  {
  }

  lemma DemoteTail(w: World, p: Pair, f: Script, t: nat)
    requires Good(w) && IsPair(w, p) && p.v in w[p.b].volumes && p.u in w[p.c].volumes
    ensures var o := DemoteSource(w, p.b, p.i, f, t);
            (o.ok <==> Answered(f, t, 5)) &&
            o.world == if o.ok then Turn(w, p) else if Answered(f, t, 3) then Split(w, p) else w
  {
    DeleteSplits(w, p);
    CreateTurns(w, p);
  }

  /** After a Demote the other side is the SOURCE, so a Promote there changes nothing, whatever calls are lost; it reports
      success when its three calls are answered. */
  lemma PromoteAfterDemote(w: World, p: Pair, f: Script, t: nat)
    requires Good(w) && IsPair(w, p) && w[p.b].replicas[p.i].role == SOURCE
    requires p.v in w[p.b].volumes && p.u in w[p.c].volumes
    ensures var o := Promote(Turn(w, p), p.c, p.u, f, t);
            o.world == Turn(w, p) && (o.ok <==> f.call(t) && f.call(t + 1) && f.call(t + 2))
  {
    var p' := TurnedPair(w, p);
    var w' := Turn(w, p);
    assert BoxOk(w'[p.c]);
    FoundByName(w'[p.c], p.u, p'.i);
  }

  /** Demote of a turned pair, when it succeeds, restores what every array showed; when it fails it leaves the turned pair
      or none. */
  lemma DemoteBack(w: World, p: Pair, f: Script, t: nat)
    requires Good(w) && IsPair(w, p) && w[p.b].replicas[p.i].role == SOURCE
    requires p.v in w[p.b].volumes && p.u in w[p.c].volumes
    ensures var o := Demote(Turn(w, p), p.c, p.u, f, t);
            (o.ok ==> SameView(w, o.world)) &&
            (!o.ok ==> o.world == Turn(w, p) || Unpaired(o.world, p)) &&
            (Reliable(f) ==> o.ok)
  {
    var w' := Turn(w, p);
    var p' := TurnedPair(w, p);
    DemoteTurns(w', p', f, t);
    TurnTurns(w, p);
    TurnTurns(w', p');
    TurnedTwice(w, w', Turn(w', p'), p.b, p.v, p.c, p.u);
    SplitIsUnpaired(w', p');
  }

  /** The failover round trip: Demote on one side, Promote on the other, Demote there, with any calls lost. Once the first
      Demote succeeded the pair is turned, the Promote changes nothing whether or not it is answered, and when the second
      Demote succeeds every array shows what it showed before: same source side, same links, same pools. */
  lemma FailoverRoundTrip(w: World, p: Pair, f: Script, t: nat)
    requires Good(w) && IsPair(w, p) && w[p.b].replicas[p.i].role == SOURCE
    requires p.v in w[p.b].volumes && Step(w, p.b, DemoteOp(p.v), f, t).ok
    ensures var o1 := Step(w, p.b, DemoteOp(p.v), f, t);
            var o2 := Step(o1.world, p.c, PromoteOp(p.u), f, o1.clock);
            var o3 := Step(o2.world, p.c, DemoteOp(p.u), f, o2.clock);
            Turned(w, o1.world, p.b, p.v, p.c, p.u) && o2.world == o1.world && (o3.ok ==> SameView(w, o3.world))
  {
    hide Demote, Promote, Good, Turn, Split, SameView, Reliable;
    SplitIsUnpaired(w, p);
    DemoteTurns(w, p, f, t);
    TurnTurns(w, p);
    var o1 := Demote(w, p.b, p.v, f, t);
    PromoteAfterDemote(w, p, f, o1.clock);
    DemoteBack(w, p, f, Promote(o1.world, p.c, p.u, f, o1.clock).clock);
  }

  /** With every call answered all three requests succeed. */
  lemma FailoverRoundTripAnswered(w: World, p: Pair, f: Script, t: nat)
    requires Good(w) && IsPair(w, p) && w[p.b].replicas[p.i].role == SOURCE && Reliable(f)
    requires p.v in w[p.b].volumes
    ensures var o1 := Step(w, p.b, DemoteOp(p.v), f, t);
            var o2 := Step(o1.world, p.c, PromoteOp(p.u), f, o1.clock);
            var o3 := Step(o2.world, p.c, DemoteOp(p.u), f, o2.clock);
            o1.ok && o2.ok && o3.ok && SameView(w, o3.world)
  {
    hide Demote, Promote, Good, Turn, Split, SameView;
    SplitIsUnpaired(w, p);
    DemoteTurns(w, p, f, t);
    TurnTurns(w, p);
    var o1 := Demote(w, p.b, p.v, f, t);
    PromoteAfterDemote(w, p, f, o1.clock);
    DemoteBack(w, p, f, Promote(o1.world, p.c, p.u, f, o1.clock).clock);
  }

  /** The turned pair, seen from its new SOURCE. */
  lemma TurnedPair(w: World, p: Pair) returns (p': Pair)
    requires Good(w) && IsPair(w, p) && p.v in w[p.b].volumes && p.u in w[p.c].volumes
    ensures var w' := Turn(w, p);
            Good(w') && IsPair(w', p') && p'.b == p.c && p'.c == p.b && p'.v == p.u && p'.u == p.v &&
            w'[p'.b].replicas[p'.i].role == SOURCE && p'.v in w'[p'.b].volumes && p'.u in w'[p'.c].volumes
  {
    var w' := Turn(w, p);
    SplitIsUnpaired(w, p);
    CreateTurns(w, p);
    CreateKeepsGood(Split(w, p), p.c, p.u, p.back.id, w[p.b].replicas[p.i].localPool);
    p' := PairOf(w', p.c, w[p.c].nextReplica);
    assert p'.l == p.back;
  }

  /** A failed Demote that is repeated and then reports success, as it does when every call is answered, has turned the pair
      exactly if the first attempt had not yet split it. */
  lemma DemoteRetry(w: World, p: Pair, f: Script, t: nat, g: Script, t': nat)
    requires Good(w) && IsPair(w, p) && w[p.b].replicas[p.i].role == SOURCE
    requires !Step(w, p.b, DemoteOp(p.v), f, t).ok && p.v in w[p.b].volumes
    ensures var w1 := Step(w, p.b, DemoteOp(p.v), f, t).world;
            var o := Step(w1, p.b, DemoteOp(p.v), g, t');
            (o.ok ==> (Turned(w, o.world, p.b, p.v, p.c, p.u) <==> w1 == w)) &&
            (w1 != w ==> o.world == Split(w, p)) && (Reliable(g) ==> o.ok)
  {
    hide Turned, DemoteSource, Turn, CreateReplica;
    SplitIsUnpaired(w, p);
    DemoteTurns(w, p, f, t);
    var w1 := Demote(w, p.b, p.v, f, t).world;
    if w1 == w {
      DemoteTurns(w, p, g, t');
      TurnTurns(w, p);
    } else {
      assert BoxOk(w1[p.b]);
      NotFoundByName(w1[p.b], p.v);
      SplitIsNotTurned(w, p);
    }
  }

  lemma SplitIsNotTurned(w: World, p: Pair)
    requires Good(w) && IsPair(w, p)
    ensures !Turned(w, Split(w, p), p.b, p.v, p.c, p.u)
  {
    SplitIsUnpaired(w, p);
    var h := HalfOf(w[p.b].replicas[p.i]);
    assert Shows(w[p.b], p.v, h) && Flip(Flip(h)) == h;
    assert !Shows(Split(w, p)[p.b], p.v, Flip(h));
  }

  // ----- Promote -----

  /** Promote of a TARGET that fails leaves the pair split, if its first seven calls were answered, or the old world; it succeeds only
      with all eight answered, and has then created the pair anew over the first link named after the remote system. */
  lemma PromoteTargetStops(w: World, p: Pair, f: Script, t: nat)
    requires Good(w) && IsPair(w, p) && w[p.b].replicas[p.i].role == TARGET && p.v in w[p.b].volumes
    ensures var o, back := Promote(w, p.b, p.v, f, t), FirstLinkNamed(w[p.b].links, p.c);
            if !o.ok then
              o.world == (if Answered(f, t, 7) then Split(w, p) else w) &&
              (Answered(f, t, 8) ==> back.None? || Recreated(w, p, back.value).None?)
            else
              Answered(f, t, 8) && back.Some? && IsFirstNamed(w[p.b].links, p.c, back.value) && Recreated(w, p, back.value) == Some(o.world)
  {
    assert BoxOk(w[p.b]) && BoxOk(w[p.c]);
    FoundByName(w[p.b], p.v, p.i);
    PromoteTail(w, p, f, t + 3);
    PromoteReachesTail(w, p.b, p.v, p.i, f, t);
    FirstLinkNamedIs(w[p.b].links, p.c);
    AnsweredFirst(f, t, 3, 4);
    AnsweredFirst(f, t, 3, 5);
  }

  lemma PromoteReachesTail(w: World, b: string, v: int, i: int, f: Script, t: nat)
    requires b in w && v in w[b].volumes && ReplicaFor(w[b], w[b].volumes[v].name) == Some(i)
    requires i in w[b].replicas && w[b].replicas[i].role == TARGET
    ensures var o := Promote(w, b, v, f, t);
            if Answered(f, t, 3) then o == PromoteTarget(w, b, v, i, f, t + 3) else !o.ok && o.world == w
  {
  }

  ghost function Recreated(w: World, p: Pair, link: Link): Option<World>
    requires p.b in w && p.c in w && p.i in w[p.b].replicas
  {
    CreateReplica(Split(w, p), p.b, p.v, link.id, w[p.b].replicas[p.i].remotePool)
  }

  lemma PromoteTail(w: World, p: Pair, f: Script, t: nat)
    requires Good(w) && IsPair(w, p) && p.v in w[p.b].volumes
    ensures var o, back := PromoteTarget(w, p.b, p.v, p.i, f, t), FirstLinkNamed(w[p.b].links, p.c);
            if !o.ok then
              o.world == (if Answered(f, t, 4) then Split(w, p) else w) &&
              (Answered(f, t, 5) ==> back.None? || Recreated(w, p, back.value).None?)
            else
              Answered(f, t, 5) && back.Some? && Recreated(w, p, back.value) == Some(o.world)
  {
    NamedLinkHasId(w, p.b, p.c);
    hide Good, CreateReplica, DeleteReplica, Split, Mirror;
    OtherHalfFound(w, p);
    DeleteSplits(w, p);
  }

  lemma NamedLinkHasId(w: World, b: string, name: string)
    requires Good(w) && b in w
    ensures var l := FirstLinkNamed(w[b].links, name); l.Some? ==> l.value.id != 0
  {
    FirstLinkNamedIs(w[b].links, name);
    var l := FirstLinkNamed(w[b].links, name);
    if l.Some? {
      assert IsFirstNamed(w[b].links, name, l.value);
      assert LinkOk(w, b, l.value);
    }
  }

  lemma OtherHalfFound(w: World, p: Pair)
    requires Good(w) && IsPair(w, p) && p.v in w[p.b].volumes
    ensures ReplicaFor(w[p.c], w[p.b].volumes[p.v].name) == Some(p.j)
  {
    assert BoxOk(w[p.c]);
    SplitIsUnpaired(w, p);
    FoundByName(w[p.c], p.u, p.j);
  }

  /** Promote finds its link by the convention that a link is named after the remote system. When it reports success it has
      turned the pair around exactly if the first link of that name is the pair's own link; and if it is, it succeeds
      when every call is answered. */
  lemma PromoteTurnsIffLinkNamed(w: World, p: Pair, f: Script, t: nat)
    requires Good(w) && IsPair(w, p) && w[p.b].replicas[p.i].role == TARGET && p.v in w[p.b].volumes
    ensures var o := Promote(w, p.b, p.v, f, t);
            (o.ok ==> (Turned(w, o.world, p.b, p.v, p.c, p.u) <==> IsFirstNamed(w[p.b].links, p.c, p.l))) &&
            (Reliable(f) && IsFirstNamed(w[p.b].links, p.c, p.l) ==> o.ok)
  {
    hide Promote, CreateReplica, Turned;
    var o, back, m := Promote(w, p.b, p.v, f, t), FirstLinkNamed(w[p.b].links, p.c), Mirrored(p);
    SplitIsUnpaired(w, p);
    MirroredIsPair(w, p);
    PromoteTargetStops(w, p, f, t);
    FirstLinkNamedIs(w[p.b].links, p.c);
    assert LinkOk(w, p.b, p.l);
    if back == Some(p.l) {
      CreateTurns(w, m);
      TurnTurns(w, m);
      TurnedEitherWay(w, o.world, p);
      assert Split(w, m) == Split(w, p);
    } else if o.ok {
      OtherLinkShows(w, p, back.value, o.world);
    }
  }

  lemma OtherLinkShows(w: World, p: Pair, other: Link, w': World)
    requires Good(w) && IsPair(w, p) && other in w[p.b].links && other != p.l && p.v in w[p.b].volumes
    requires Recreated(w, p, other) == Some(w')
    ensures !Turned(w, w', p.b, p.v, p.c, p.u)
  {
    SplitIsUnpaired(w, p);
    var w1 := Split(w, p);
    assert LinkOk(w, p.b, p.l) && LinkOk(w, p.b, other);
    assert other.id != p.l.id;
    CreateKeepsGood(w1, p.b, p.v, other.id, w[p.b].replicas[p.i].remotePool);
    var n := w1[p.b].nextReplica;
    var h := HalfOf(w'[p.b].replicas[n]);
    assert h.link == other.id && Shows(w'[p.b], p.v, h);
    assert BoxOk(w[p.b]);
    assert !Shows(w[p.b], p.v, Flip(h));
  }

  // ----- Enable and Disable -----

  /** Replicas `i` of `b` and `j` of `c` are the halves of a new pair with its SOURCE at `b`; every other replica is as in `w`. */
  ghost predicate Adds(w: World, w': World, b: string, i: int, c: string, j: int) {
    b in w && c in w && SameLinks(w, w') &&
    i in w'[b].replicas && w'[b].replicas - {i} == w[b].replicas &&
    j in w'[c].replicas && w'[c].replicas - {j} == w[c].replicas &&
    w'[b].replicas[i].role == SOURCE && w'[b].replicas[i].peer == j &&
    (forall d :: d in w && d != b && d != c ==> w'[d].replicas == w[d].replicas)
  }

  lemma JoinAdds(w: World, b: string, v: int, l: Link, u: int)
    requires b in w && l.remote in w && l.remote != b && v in w[b].volumes && u in w[l.remote].volumes
    requires w[b].nextReplica !in w[b].replicas && w[l.remote].nextReplica !in w[l.remote].replicas
    ensures var w', i := Join(w, b, v, l, u), w[b].nextReplica;
            Adds(w, w', b, i, l.remote, w[l.remote].nextReplica) &&
            w'[b].replicas[i].volume == v && w'[b].replicas[i].link == l.id
  {
    var w', c := Join(w, b, v, l, u), l.remote;
    assert w'[b].replicas - {w[b].nextReplica} == w[b].replicas;
    assert w'[c].replicas - {w[c].nextReplica} == w[c].replicas;
  }

  lemma CreationAdds(w: World, b: string, v: int, l: Link, pool: int)
    requires Good(w) && b in w && l in w[b].links && CreateReplica(w, b, v, l.id, pool).Some?
    ensures var w', i := CreateReplica(w, b, v, l.id, pool).value, w[b].nextReplica;
            l.remote in w && Adds(w, w', b, i, l.remote, w[l.remote].nextReplica) &&
            w'[b].replicas[i].volume == v && w'[b].replicas[i].link == l.id
  {
    assert LinkOk(w, b, l) && BoxOk(w[b]) && BoxOk(w[l.remote]);
    var there, name := w[l.remote], w[b].volumes[v].name;
    if NameTaken(there, name) {
      JoinAdds(w, b, v, l, VolumeOf(there, name));
    } else {
      JoinAdds(w[l.remote := AddVolume(there, Volume(name, pool))], b, v, l, there.nextVolume);
    }
  }

  /** A successful Enable makes the volume the SOURCE of a pair over the last listed link to the remote system, with
      a TARGET of the same name over there, and changes no other replica. */
  lemma EnablePairs(w: World, b: string, v: int, remote: string, poolName: string, f: Script, t: nat) returns (p: Pair)
    requires Good(w) && b in w && Enable(w, b, v, remote, poolName, f, t).ok
    ensures var w' := Enable(w, b, v, remote, poolName, f, t).world;
            Good(w') && IsPair(w', p) && p.b == b && p.v == v && p.c == remote && IsLastTo(w[b].links, remote, p.l) && p.l.up &&
            w'[p.b].replicas[p.i].role == SOURCE && w'[p.c].replicas[p.j].role == TARGET && SameLinks(w, w') &&
            (forall c :: c in w ==> SameReplicas(w[c], Split(w', p)[c]))
  {
    LastLinkToIs(w[b].links, remote);
    var l := LastLinkTo(w[b].links, remote).value;
    assert LinkOk(w, b, l);
    p := CreatedPair(w, b, v, l, w[b].pools[poolName]);
  }

  lemma CreatedPair(w: World, b: string, v: int, l: Link, pool: int) returns (p: Pair)
    requires Good(w) && b in w && l in w[b].links && CreateReplica(w, b, v, l.id, pool).Some?
    ensures var w' := CreateReplica(w, b, v, l.id, pool).value;
            Good(w') && IsPair(w', p) && p.b == b && p.v == v && p.c == l.remote && p.l == l &&
            w'[p.b].replicas[p.i].role == SOURCE && w'[p.c].replicas[p.j].role == TARGET && SameLinks(w, w') &&
            (forall c :: c in w ==> SameReplicas(w[c], Split(w', p)[c]))
  {
    assert LinkOk(w, b, l);
    CreateKeepsGood(w, b, v, l.id, pool);
    CreationAdds(w, b, v, l, pool);
    p := PairOf(CreateReplica(w, b, v, l.id, pool).value, b, w[b].nextReplica);
  }

  ghost predicate SameReplicas(a: Box, b: Box) {
    b.replicas == a.replicas && b.links == a.links
  }

  /** Disable takes exactly the volume's pair away, from either side; while the arrays answer it succeeds
      exactly if the volume is replicated. */
  lemma DisableSplits(w: World, p: Pair, f: Script, t: nat)
    requires Good(w) && IsPair(w, p) && p.v in w[p.b].volumes
    ensures var o := Disable(w, p.b, p.v, f, t);
            o.world == (if o.ok then Split(w, p) else w) && (o.ok <==> Answered(f, t, 3))
  {
    assert BoxOk(w[p.b]);
    FoundByName(w[p.b], p.v, p.i);
    DeleteSplits(w, p);
  }

  lemma DisableNeedsReplica(w: World, b: string, v: int, f: Script, t: nat)
    requires Good(w) && b in w && v in w[b].volumes && !Replicated(w[b], v)
    ensures var o := Disable(w, b, v, f, t); !o.ok && o.world == w
  {
    assert BoxOk(w[b]);
    NotFoundByName(w[b], v);
  }

  /** Enable followed by a successful Disable leaves every array with the replicas it had. */
  lemma EnableDisable(w: World, b: string, v: int, remote: string, poolName: string, f: Script, t: nat)
    requires Good(w) && b in w && Enable(w, b, v, remote, poolName, f, t).ok
    ensures var o1 := Enable(w, b, v, remote, poolName, f, t);
            var o2 := Step(o1.world, b, DisableOp(v), f, o1.clock);
            (o2.ok ==> o2.world.Keys == w.Keys && forall c :: c in w ==> SameReplicas(w[c], o2.world[c])) &&
            (!o2.ok ==> o2.world == o1.world) && (Reliable(f) ==> o2.ok)
  {
    var o1 := Enable(w, b, v, remote, poolName, f, t);
    var p := EnablePairs(w, b, v, remote, poolName, f, t);
    assert BoxOk(o1.world[b]);
    DisableSplits(o1.world, p, f, o1.clock);
  }

  /** The remote pool's name is resolved on the local array. A new replica volume lands in the pool the
      remote array calls by that name exactly if both arrays give the name the same id. */
  lemma EnablePool(w: World, b: string, v: int, remote: string, poolName: string, f: Script, t: nat)
    requires Good(w) && b in w && v in w[b].volumes && remote in w && poolName in w[remote].pools
    requires Enable(w, b, v, remote, poolName, f, t).ok && !NameTaken(w[remote], w[b].volumes[v].name)
    ensures var w' := Enable(w, b, v, remote, poolName, f, t).world;
            remote in w' && w[remote].nextVolume in w'[remote].volumes &&
            (w'[remote].volumes[w[remote].nextVolume].pool == w[remote].pools[poolName] <==>
             w[b].pools[poolName] == w[remote].pools[poolName])
  {
    LastLinkToIs(w[b].links, remote);
    var l := LastLinkTo(w[b].links, remote).value;
    assert LinkOk(w, b, l);
  }

  // ----- when a request is granted, and when it has nothing to do -----

  /** The remote system has no volume of that name, or an unreplicated one in that pool. */
  ghost predicate Accepts(box: Box, name: string, pool: int) {
    forall u :: Named(box, u, name) ==> !Replicated(box, u) && box.volumes[u].pool == pool
  }

  /** Enable succeeds exactly if its five calls are answered, the volume and the pool's name exist here, the last listed link to the remote
      system is up, the volume is not replicated, and the remote system has no volume of its name or an
      unreplicated one in the pool of the id that name has here. */
  lemma EnableGrantedIff(w: World, b: string, v: int, remote: string, poolName: string, f: Script, t: nat)
    requires Good(w) && b in w
    ensures Enable(w, b, v, remote, poolName, f, t).ok <==>
            Answered(f, t, 5) && v in w[b].volumes && poolName in w[b].pools && !Replicated(w[b], v) &&
            remote in w && Accepts(w[remote], w[b].volumes[v].name, w[b].pools[poolName]) &&
            exists l :: IsLastTo(w[b].links, remote, l) && l.up
  {
    LastLinkToIs(w[b].links, remote);
    var link := LastLinkTo(w[b].links, remote);
    if link.Some? && v in w[b].volumes && poolName in w[b].pools {
      assert IsLastTo(w[b].links, remote, link.value);
      assert LinkOk(w, b, link.value) && BoxOk(w[remote]);
      CreateGrantedIff(w, b, v, link.value, w[b].pools[poolName]);
    }
  }

  lemma CreateGrantedIff(w: World, b: string, v: int, l: Link, pool: int)
    requires Good(w) && b in w && l in w[b].links && v in w[b].volumes
    ensures l.remote in w
    ensures CreateReplica(w, b, v, l.id, pool).Some? <==>
            !Replicated(w[b], v) && Accepts(w[l.remote], w[b].volumes[v].name, pool)
  {
    assert LinkOk(w, b, l) && BoxOk(w[l.remote]);
    var there, name := w[l.remote], w[b].volumes[v].name;
    if NameTaken(there, name) {
      var u := VolumeOf(there, name);
      forall x | Named(there, x, name) ensures x == u {}
    }
  }

  /** A Promote of a volume that is unreplicated or a SOURCE, and a Demote of one that is unreplicated or a TARGET, changes nothing and
      succeeds exactly if it is answered. */
  lemma NothingToTurn(w: World, b: string, v: int, role: Role, f: Script, t: nat)
    requires Good(w) && b in w && v in w[b].volumes
    requires forall i :: i in w[b].replicas && w[b].replicas[i].volume == v ==> w[b].replicas[i].role == role
    ensures var o := Promote(w, b, v, f, t);
            role == SOURCE ==> o.world == w && (o.ok <==> f.call(t) && f.call(t + 1) && f.call(t + 2))
    ensures var o := Demote(w, b, v, f, t);
            role == TARGET ==> o.world == w && (o.ok <==> f.call(t) && f.call(t + 1))
  {
    assert BoxOk(w[b]);
    if i :| i in w[b].replicas && w[b].replicas[i].volume == v {
      FoundByName(w[b], v, i);
    } else {
      NotFoundByName(w[b], v);
    }
  }
}
