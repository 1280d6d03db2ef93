/** Snapshots and clones, and runs that mix them with deletions and expiring locks. */
module Snapshots {
  import opened Basics
  import opened Faults
  import opened Forest
  import opened Handles
  import opened SnapshotLocks
  import VolumeDeletion

  const PV_NAME := "host.k8s.pvname"

  /** The array: its volumes and the next id it will give out. Ids are not reused. */
  datatype World = World(volumes: Store, next: int)

  datatype Result = Result(world: World, id: Option<int>, clock: nat)

  /** The lock parameter is given, is accepted and expires after `now`. */
  predicate Locks(lock: string, now: int) {
    lock != "" && LockExpiry(now, lock).Some? && LockExpiry(now, lock).value > now
  }

  ghost predicate Named(s: Store, id: int, name: string) {
    id in s && s[id].name == name
  }

  ghost predicate NameTaken(s: Store, name: string) {
    exists id :: Named(s, id, name)
  }

  ghost function IdOf(s: Store, name: string): (id: int)
    requires NameTaken(s, name)
    ensures Named(s, id, name)
  {
    var id :| Named(s, id, name);
    id
  }

  function Add(w: World, v: Volume): World {
    World(w.volumes[w.next := v], w.next + 1)
  }

  /** CommonCreateSnapshot. `lock` is the lock_expires_at parameter, empty if not given, and `now` the time the array reports.
      The array refuses a name that is taken. */
  ghost function SnapshotOutcome(w: World, name: string, source: int, lock: string, now: int, f: Script, t: nat): Result {
    if !f.call(t) then Result(w, None, t + 1)
    else if NameTaken(w.volumes, name) then
      var id := IdOf(w.volumes, name);
      Result(w, if w.volumes[id].parent == source then Some(id) else None, t + 1)
    else if !f.call(t + 1) || source !in w.volumes then Result(w, None, t + 2)
    else
      var t' := if lock != "" then t + 3 else t + 2;
      if lock != "" && (!f.call(t + 2) || LockExpiry(now, lock).None?) then Result(w, None, t')
      else if !f.call(t') then Result(w, None, t' + 1)
      else Result(Add(w, Child(w.volumes[source], source, name, Locks(lock, now))), Some(w.next), t' + 1)
  }

  function Child(parent: Volume, id: int, name: string, locked: bool): Volume {
    Volume(name, id, parent.size, parent.pool, locked, [])
  }

  /** CreateVolumeFromVolumeContent: a snapshot of the source that is promoted, if the array can, to a root. */
  ghost function CloneOutcome(w: World, name: string, source: int, size: int, pool: int, promote: bool, f: Script, t: nat): Result {
    if !f.call(t) || source !in w.volumes || w.volumes[source].size != size then Result(w, None, t + 1)
    else if !f.call(t + 1) || w.volumes[source].pool != pool then Result(w, None, t + 2)
    else if !f.call(t + 2) || NameTaken(w.volumes, name) then Result(w, None, t + 3)
    else FinishOutcome(w, Child(w.volumes[source], source, name, false), promote, f, t + 3)
  }

  /** What follows once the snapshot `child` is added to `w`: it is read back, promoted and tagged. */
  function FinishOutcome(w: World, child: Volume, promote: bool, f: Script, t: nat): Result {
    var w1 := Add(w, child);
    if !f.call(t) then Result(w1, None, t + 1)
    else if !f.call(t + 1) then Result(w1, None, t + 2)
    else if promote && !f.call(t + 2) then Result(w1, None, t + 3)
    else
      var root := if promote then child.(parent := 0) else child;
      var t' := if promote then t + 3 else t + 2;
      if !f.call(t') then Result(Add(w, root), None, t' + 1)
      else Result(Add(w, root.(tags := [PV_NAME])), Some(w.next), t' + 1)
  }

  // ----- runs -----

  datatype Op =
    | CreateSnapshot(name: string, source: int, lock: string, now: int)
    | Clone(name: string, source: int, size: int, pool: int, promote: bool)
    | Delete(id: int)
    | LockExpires(id: int)

  ghost function Step(w: World, op: Op, f: Script, t: nat): Result {
    match op
    case CreateSnapshot(name, source, lock, now) => SnapshotOutcome(w, name, source, lock, now, f, t)
    case Clone(name, source, size, pool, promote) => CloneOutcome(w, name, source, size, pool, promote, f, t)
    case Delete(id) =>
      var o := VolumeDeletion.DeleteOutcome(w.volumes, id, f, t);
      Result(World(o.store, w.next), if o.ok then Some(id) else None, o.clock)
    case LockExpires(id) =>
      Result(if id in w.volumes then World(w.volumes[id := w.volumes[id].(locked := false)], w.next) else w, Some(id), t)
  }

  ghost function Run(w: World, ops: seq<Op>, f: Script, t: nat): World
    decreases |ops|
  {
    if ops == [] then w
    else
      var r := Step(w, ops[0], f, t);
      Run(r.world, ops[1..], f, r.clock)
  }

  ghost predicate UniqueNames(s: Store) {
    forall a, b :: a in s && b in s && s[a].name == s[b].name ==> a == b
  }

  /** What every run keeps: unique names, ids given out upwards, no volume locked and marked. */
  ghost predicate Registered(w: World) {
    MarkedUnlocked(w.volumes) && UniqueNames(w.volumes) && w.next > 0 &&
    forall v :: v in w.volumes ==> 0 < v < w.next
  }

  /** What it keeps besides while no volume is orphaned. */
  ghost predicate RunInv(w: World) {
    Registered(w) && IsForest(w.volumes)
  }

  /** Volumes that exist before and after a step keep their name and their parent, and ids only grow. */
  ghost predicate KeepsIdentity(w: World, w': World) {
    w.next <= w'.next &&
    forall v :: v in w'.volumes && v < w.next ==>
      v in w.volumes && w'.volumes[v].name == w.volumes[v].name && w'.volumes[v].parent == w.volumes[v].parent
  }

  /** A step that creates either changes nothing or adds one unmarked volume under a new name. */
  ghost predicate Grown(w: World, w': World) {
    w' == w || exists v :: Added(w, v) && w' == Add(w, v)
  }

  ghost predicate Added(w: World, v: Volume) {
    !NameTaken(w.volumes, v.name) && !Marked(v) && (v.parent == 0 || v.parent in w.volumes)
  }

  ghost predicate LockedKept(w: World, w': World) {
    forall v :: v in w.volumes && w.volumes[v].locked ==> v in w'.volumes && w'.volumes[v] == w.volumes[v]
  }

  lemma CreationGrows(w: World, op: Op, f: Script, t: nat)
    requires op.CreateSnapshot? || op.Clone?
    ensures Grown(w, Step(w, op, f, t).world)
  {
    if op.source in w.volumes && !NameTaken(w.volumes, op.name) {
      var source := w.volumes[op.source];
      if op.CreateSnapshot? {
        assert Added(w, Child(source, op.source, op.name, Locks(op.lock, op.now)));
      } else {
        var child := Child(source, op.source, op.name, false);
        assert Added(w, child) && Added(w, child.(parent := 0));
        assert Added(w, child.(tags := [PV_NAME])) && Added(w, child.(parent := 0, tags := [PV_NAME]));
      }
    }
  }

  lemma AdditionKeepsForest(s: Store, id: int, v: Volume)
    requires IsForest(s) && id != 0 && id !in s && (v.parent == 0 || v.parent in s)
    ensures IsForest(s[id := v])
  {
    var s' := s[id := v];
    var rank :| Ranks(s, rank);
    assert Ranks(s', rank[id := if v.parent in s then rank[v.parent] + 1 else 0]);
  }

  lemma AdditionKeepsNames(s: Store, id: int, v: Volume)
    requires UniqueNames(s) && id !in s && !NameTaken(s, v.name)
    ensures UniqueNames(s[id := v])
  {
    assert forall a :: a in s ==> Named(s, a, s[a].name);
  }

  /** Nobody goes and nobody changes parent. */
  ghost predicate KeepsChildren(s: Store, s': Store) {
    forall c :: c in s ==> c in s' && s'[c].parent == s[c].parent
  }

  lemma ChildrenKept(s: Store, s': Store)
    requires KeepsChildren(s, s') && NoMarkedLeaf(s)
    requires forall v :: v in s' && Marked(s'[v]) ==> v in s && Marked(s[v])
    ensures NoMarkedLeaf(s')
  {
    forall m | m in s' && Marked(s'[m]) ensures HasChildren(s', m) {
      var c :| c in s && s[c].parent == m;
      assert c in s' && s'[c].parent == m;
    }
  }

  lemma GrowthKeeps(w: World, w': World)
    requires Registered(w) && Grown(w, w')
    ensures Registered(w') && KeepsIdentity(w, w') && LockedKept(w, w')
    ensures IsForest(w.volumes) ==> IsForest(w'.volumes)
    ensures NoMarkedLeaf(w.volumes) ==> NoMarkedLeaf(w'.volumes)
  {
    if w' != w {
      var v :| Added(w, v) && w' == Add(w, v);
      if IsForest(w.volumes) { AdditionKeepsForest(w.volumes, w.next, v); }
      AdditionKeepsNames(w.volumes, w.next, v);
      if NoMarkedLeaf(w.volumes) { ChildrenKept(w.volumes, w'.volumes); }
    }
  }

  lemma ExpiryKeeps(s: Store, id: int)
    requires id in s
    ensures var s' := s[id := s[id].(locked := false)];
            (IsForest(s) ==> IsForest(s')) && (NoMarkedLeaf(s) ==> NoMarkedLeaf(s'))
  {
    var s' := s[id := s[id].(locked := false)];
    if IsForest(s) {
      var rank :| Ranks(s, rank);
      assert Ranks(s', rank);
    }
    if NoMarkedLeaf(s) { ChildrenKept(s, s'); }
  }

  /** A deletion that a lost child listing lets remove a volume with children. */
  ghost predicate Orphans(w: World, op: Op, f: Script, t: nat) {
    op.Delete? && VolumeDeletion.RemovesAParent(w.volumes, op.id, f, t)
  }

  /** Any step, wherever it stops and whatever is lost, keeps names unique, the identity of every volume, and every locked volume
      unless it is that volume's lock that expires. */
  lemma StepKeepsRegistered(w: World, op: Op, f: Script, t: nat)
    requires Registered(w)
    ensures var w' := Step(w, op, f, t).world;
            Registered(w') && KeepsIdentity(w, w') &&
            forall v :: v in w.volumes && w.volumes[v].locked && op != LockExpires(v) ==>
              v in w'.volumes && w'.volumes[v] == w.volumes[v]
  {
    var w' := Step(w, op, f, t).world;
    if op.Delete? {
      VolumeDeletion.StoppedCallTrims(w.volumes, op.id, f, t);
      VolumeDeletion.StoppedCallSparesLocked(w.volumes, op.id, f, t);
      hide VolumeDeletion.DeleteOutcome;
      assert forall v :: v in w'.volumes ==> w'.volumes[v].(tags := w.volumes[v].tags) == w.volumes[v];
    } else if op.CreateSnapshot? || op.Clone? {
      CreationGrows(w, op, f, t);
      GrowthKeeps(w, w');
    }
  }

  /** A step keeps the forest exactly if it orphans nothing. */
  lemma StepKeepsForestIff(w: World, op: Op, f: Script, t: nat)
    requires RunInv(w)
    ensures IsForest(Step(w, op, f, t).world.volumes) <==> !Orphans(w, op, f, t)
  {
    var w' := Step(w, op, f, t).world;
    if op.Delete? {
      VolumeDeletion.StoppedCallIsSafe(w.volumes, op.id, f, t);
    } else if op.LockExpires? {
      if op.id in w.volumes { ExpiryKeeps(w.volumes, op.id); }
    } else {
      CreationGrows(w, op, f, t);
      GrowthKeeps(w, w');
    }
  }

  /** No step of the run orphans a volume. */
  ghost predicate Orderly(w: World, ops: seq<Op>, f: Script, t: nat)
    decreases |ops|
  {
    ops != [] ==>
      !Orphans(w, ops[0], f, t) && var r := Step(w, ops[0], f, t); Orderly(r.world, ops[1..], f, r.clock)
  }

  lemma {:induction false} ListingIsOrderly(w: World, ops: seq<Op>, f: Script, t: nat)
    requires Listing(f)
    ensures Orderly(w, ops, f, t)
    decreases |ops|
  {
    if ops != [] {
      if ops[0].Delete? { VolumeDeletion.ListingProtectsParents(w.volumes, ops[0].id, f, t); }
      var r := Step(w, ops[0], f, t);
      ListingIsOrderly(r.world, ops[1..], f, r.clock);
    }
  }

  /** Over any run, whatever is lost: no volume is locked and marked, names stay unique, a volume keeps its name and parent, and one
      locked at the start is untouched at the end unless its lock expired in between. */
  lemma {:induction false} RunKeepsRegistered(w: World, ops: seq<Op>, f: Script, t: nat)
    requires Registered(w)
    ensures var w' := Run(w, ops, f, t);
            Registered(w') && KeepsIdentity(w, w') &&
            forall v :: v in w.volumes && w.volumes[v].locked && LockExpires(v) !in ops ==>
              v in w'.volumes && w'.volumes[v] == w.volumes[v]
    decreases |ops|
  {
    if ops != [] {
      var r := Step(w, ops[0], f, t);
      StepKeepsRegistered(w, ops[0], f, t);
      RunKeepsRegistered(r.world, ops[1..], f, r.clock);
    }
  }

  /** No cycle, and nobody's parent is yet to be created. */
  ghost predicate Layered(w: World) {
    Acyclic(w.volumes) && forall v :: v in w.volumes ==> w.volumes[v].parent < w.next
  }

  lemma AdditionKeepsLayered(w: World, v: Volume)
    requires Registered(w) && Layered(w) && Added(w, v)
    ensures Layered(Add(w, v))
  {
    hide UniqueNames, MarkedUnlocked, NameTaken;
    var s := w.volumes;
    var rank :| Ranks(s, rank);
    var s', rank' := s[w.next := v], rank[w.next := if v.parent in s then rank[v.parent] + 1 else 0];
    assert Add(w, v).volumes == s' && w.next !in s;
    forall c | c in s' && s'[c].parent in s' ensures rank'[s'[c].parent] < rank'[c] {
      assert s'[c].parent != w.next;
    }
    assert Ranks(s', rank');
  }

  lemma StepKeepsLayered(w: World, op: Op, f: Script, t: nat)
    requires Registered(w) && Layered(w)
    ensures Layered(Step(w, op, f, t).world)
  {
    var s, w' := w.volumes, Step(w, op, f, t).world;
    var rank :| Ranks(s, rank);
    if op.Delete? {
      VolumeDeletion.StoppedCallTrims(s, op.id, f, t);
      VolumeDeletion.TrimKeepsAcyclic(s, w'.volumes);
      hide VolumeDeletion.DeleteOutcome;
    } else if op.LockExpires? {
      assert Ranks(w'.volumes, rank);
    } else {
      CreationGrows(w, op, f, t);
      if w' != w {
        var v :| Added(w, v) && w' == Add(w, v);
        AdditionKeepsLayered(w, v);
      }
    }
  }

  /** No run closes a cycle, whatever is lost. */
  lemma {:induction false} RunKeepsLayered(w: World, ops: seq<Op>, f: Script, t: nat)
    requires Registered(w) && Layered(w)
    ensures Layered(Run(w, ops, f, t))
    decreases |ops|
  {
    if ops != [] {
      var r := Step(w, ops[0], f, t);
      StepKeepsRegistered(w, ops[0], f, t);
      StepKeepsLayered(w, ops[0], f, t);
      RunKeepsLayered(r.world, ops[1..], f, r.clock);
    }
  }

  /** There is no orphan and no cycle at any point of the run. */
  ghost predicate ForestThroughout(w: World, ops: seq<Op>, f: Script, t: nat)
    decreases |ops|
  {
    IsForest(w.volumes) &&
    (ops != [] ==> var r := Step(w, ops[0], f, t); ForestThroughout(r.world, ops[1..], f, r.clock))
  }

  /** A run keeps the forest all along exactly if it is orderly. */
  lemma {:induction false} ForestIffOrderly(w: World, ops: seq<Op>, f: Script, t: nat)
    requires RunInv(w)
    ensures ForestThroughout(w, ops, f, t) <==> Orderly(w, ops, f, t)
    decreases |ops|
  {
    if ops != [] {
      var r := Step(w, ops[0], f, t);
      StepKeepsForestIff(w, ops[0], f, t);
      StepKeepsRegistered(w, ops[0], f, t);
      if Orphans(w, ops[0], f, t) {
        assert !ForestThroughout(r.world, ops[1..], f, r.clock);
      } else {
        ForestIffOrderly(r.world, ops[1..], f, r.clock);
      }
    }
  }

  // ----- marked volumes have children -----

  ghost predicate NoMarkedLeafThroughout(w: World, ops: seq<Op>, f: Script, t: nat)
    decreases |ops|
  {
    NoMarkedLeaf(w.volumes) &&
    (ops != [] ==> var r := Step(w, ops[0], f, t); NoMarkedLeafThroughout(r.world, ops[1..], f, r.clock))
  }

  /** No deletion of the run stalls: removes the last child of a marked volume and gets no further. */
  ghost predicate NeverStalls(w: World, ops: seq<Op>, f: Script, t: nat)
    decreases |ops|
  {
    ops != [] ==>
      (ops[0].Delete? ==> !VolumeDeletion.Stalls(w.volumes, ops[0].id, f, t)) &&
      var r := Step(w, ops[0], f, t); NeverStalls(r.world, ops[1..], f, r.clock)
  }

  lemma StepLeavesNoMarkedLeaf(w: World, op: Op, f: Script, t: nat)
    requires Registered(w) && NoMarkedLeaf(w.volumes)
    ensures NoMarkedLeaf(Step(w, op, f, t).world.volumes) <==> (op.Delete? ==> !VolumeDeletion.Stalls(w.volumes, op.id, f, t))
  {
    if op.Delete? {
      VolumeDeletion.MarkedLeafIffStalled(w.volumes, op.id, f, t);
    } else if op.LockExpires? {
      if op.id in w.volumes { ExpiryKeeps(w.volumes, op.id); }
    } else {
      CreationGrows(w, op, f, t);
      GrowthKeeps(w, Step(w, op, f, t).world);
    }
  }

  /** All along any run every marked volume has a child, exactly if no deletion stalls. */
  lemma {:induction false} NoMarkedLeafIff(w: World, ops: seq<Op>, f: Script, t: nat)
    requires Registered(w) && NoMarkedLeaf(w.volumes)
    ensures NoMarkedLeafThroughout(w, ops, f, t) <==> NeverStalls(w, ops, f, t)
    decreases |ops|
  {
    if ops != [] {
      var r := Step(w, ops[0], f, t);
      StepKeepsRegistered(w, ops[0], f, t);
      StepLeavesNoMarkedLeaf(w, ops[0], f, t);
      if NoMarkedLeaf(r.world.volumes) {
        NoMarkedLeafIff(r.world, ops[1..], f, r.clock);
      }
    }
  }

  /** Every deletion of the run reports success or leaves the array as it was. */
  ghost predicate AllOrNothing(w: World, ops: seq<Op>, f: Script, t: nat)
    decreases |ops|
  {
    ops != [] ==>
      var r := Step(w, ops[0], f, t);
      (ops[0].Delete? ==> r.id.Some? || r.world == w) && AllOrNothing(r.world, ops[1..], f, r.clock)
  }

  /** Any run in which every deletion succeeds or changes nothing leaves no marked volume without a child, whatever is lost. */
  lemma {:induction false} RunLeavesNoMarkedLeaf(w: World, ops: seq<Op>, f: Script, t: nat)
    requires Registered(w) && NoMarkedLeaf(w.volumes) && AllOrNothing(w, ops, f, t)
    ensures NoMarkedLeaf(Run(w, ops, f, t).volumes)
    decreases |ops|
  {
    if ops != [] {
      var r := Step(w, ops[0], f, t);
      StepKeepsRegistered(w, ops[0], f, t);
      if !ops[0].Delete? {
        StepLeavesNoMarkedLeaf(w, ops[0], f, t);
      } else if r.id.Some? {
        VolumeDeletion.SuccessLeavesNoMarkedLeaf(w.volumes, ops[0].id, f, t);
      }
      RunLeavesNoMarkedLeaf(r.world, ops[1..], f, r.clock);
    }
  }

  // ----- idempotent creation -----

  /** A successful request either found the snapshot, and changed nothing, or added it: a new id, a copy of the source's
      size and pool, locked exactly if a lock was asked for that expires later. */
  lemma CreatedSnapshot(w: World, name: string, source: int, lock: string, now: int, f: Script, t: nat)
    requires Registered(w)
    ensures var r := SnapshotOutcome(w, name, source, lock, now, f, t);
            r.id.Some? ==>
              var s, id := r.world.volumes, r.id.value;
              Named(s, id, name) && s[id].parent == source && id < r.world.next &&
              (forall v :: v in w.volumes ==> v in s && s[v] == w.volumes[v]) &&
              (NameTaken(w.volumes, name) ==> r.world == w) &&
              (!NameTaken(w.volumes, name) ==>
                id !in w.volumes && s.Keys == w.volumes.Keys + {id} && !Marked(s[id]) &&
                (s[id].locked <==> Locks(lock, now)) &&
                source in w.volumes && s[id].size == w.volumes[source].size && s[id].pool == w.volumes[source].pool)
  {
  }

  /** A successful clone is a new unlocked volume of the requested size and pool, a root exactly if the array promotes;
      no other volume changes. A failed one leaves at most an unlocked child or root of that name behind. */
  lemma CreatedClone(w: World, name: string, source: int, size: int, pool: int, promote: bool, f: Script, t: nat)
    requires Registered(w)
    ensures var r := CloneOutcome(w, name, source, size, pool, promote, f, t);
            var s := r.world.volumes;
            (forall v :: v in w.volumes ==> v in s && s[v] == w.volumes[v]) &&
            (r.id.Some? ==>
              r.id.value !in w.volumes && Named(s, r.id.value, name) && s.Keys == w.volumes.Keys + {r.id.value} &&
              var v := s[r.id.value];
              v.size == size && v.pool == pool && !v.locked && v.tags == ["host.k8s.pvname"] &&
              v.parent == if promote then 0 else source) &&
            (r.id.None? && r.world != w ==>
              s.Keys == w.volumes.Keys + {w.next} && Named(s, w.next, name) && !s[w.next].locked &&
              (s[w.next].parent == source || (promote && s[w.next].parent == 0)))
  {
  }

  /** A snapshot is granted exactly if its calls are answered and the name belongs to a snapshot of that source already, or is free, the
      source exists and the lock parameter, if given, means a positive count of a unit. */
  lemma SnapshotGrantedIff(w: World, name: string, source: int, lock: string, now: int, f: Script, t: nat)
    requires Registered(w) && IsInt(now) && now >= 0
    ensures SnapshotOutcome(w, name, source, lock, now, f, t).id.Some? <==>
            (f.call(t) && exists id :: Named(w.volumes, id, name) && w.volumes[id].parent == source) ||
            ((forall id :: id in w.volumes ==> w.volumes[id].name != name) && source in w.volumes &&
             (if lock == "" then Answered(f, t, 3)
              else Answered(f, t, 4) && exists count, unit :: Means(lock, count, unit) && count >= 1))
  {
    LockExpiryIff(now, lock);
    hide LockExpiry, Means, SnapshotOutcome;
    if id :| Named(w.volumes, id, name) {
      TakenSnapshotIff(w, id, name, source, lock, now, f, t);
      assert forall id' :: Named(w.volumes, id', name) ==> id' == id;
    } else {
      assert forall id :: id in w.volumes ==> Named(w.volumes, id, w.volumes[id].name);
      FreeSnapshotIff(w, name, source, lock, now, f, t);
    }
  }

  lemma TakenSnapshotIff(w: World, id: int, name: string, source: int, lock: string, now: int, f: Script, t: nat)
    requires Registered(w) && Named(w.volumes, id, name)
    ensures SnapshotOutcome(w, name, source, lock, now, f, t).id.Some? <==> f.call(t) && w.volumes[id].parent == source
  {
    hide LockExpiry, Locks, Child, MarkedUnlocked;
    assert NameTaken(w.volumes, name) && IdOf(w.volumes, name) == id;
  }

  lemma FreeSnapshotIff(w: World, name: string, source: int, lock: string, now: int, f: Script, t: nat)
    requires !NameTaken(w.volumes, name)
    ensures SnapshotOutcome(w, name, source, lock, now, f, t).id.Some? <==>
            source in w.volumes && if lock == "" then Answered(f, t, 3) else Answered(f, t, 4) && LockExpiry(now, lock).Some?
  {
    hide LockExpiry, Locks, Child, NameTaken;
    assert Answered(f, t, 3) <==> f.call(t) && f.call(t + 1) && f.call(t + 2);
    assert Answered(f, t, 4) <==> f.call(t) && f.call(t + 1) && f.call(t + 2) && f.call(t + 3);
  }

  /** A lock parameter whose expiry fits 64 bits does lock. */
  lemma LockLocks(lock: string, now: int, count: int, unit: int)
    requires IsInt(now) && now >= 0 && Means(lock, count, unit) && count >= 1 && now + count * unit <= MAX_INT
    ensures Locks(lock, now)
  {
    hide LockExpiry, Means;
    LockInTime(now, lock, count, unit);
  }

  /** A clone is granted exactly if its calls are answered, its source exists with the requested size and pool, and the name
      is free. */
  lemma CloneGrantedIff(w: World, name: string, source: int, size: int, pool: int, promote: bool, f: Script, t: nat)
    requires Registered(w)
    ensures CloneOutcome(w, name, source, size, pool, promote, f, t).id.Some? <==>
            Answered(f, t, if promote then 7 else 6) && source in w.volumes &&
            w.volumes[source].size == size && w.volumes[source].pool == pool &&
            forall id :: id in w.volumes ==> w.volumes[id].name != name
  {
    assert NameTaken(w.volumes, name) <==> exists id :: id in w.volumes && w.volumes[id].name == name by {
      if id :| id in w.volumes && w.volumes[id].name == name { assert Named(w.volumes, id, name); }
    }
  }

  /** A clone that fails after its snapshot was created leaves that snapshot there: exactly if the first three calls
      were answered and the clone would have been granted. */
  lemma FailedCloneStays(w: World, name: string, source: int, size: int, pool: int, promote: bool, f: Script, t: nat)
    requires Registered(w)
    ensures w.next in CloneOutcome(w, name, source, size, pool, promote, f, t).world.volumes <==>
            f.call(t) && f.call(t + 1) && f.call(t + 2) &&
            source in w.volumes && w.volumes[source].size == size && w.volumes[source].pool == pool && !NameTaken(w.volumes, name)
  {
  }

  lemma FoundAgain(w: World, id: int, name: string, source: int, lock: string, now: int, source': int, f: Script, t: nat)
    requires Registered(w) && f.call(t) && Named(w.volumes, id, name) && w.volumes[id].parent == source
    ensures var again := SnapshotOutcome(w, name, source', lock, now, f, t);
            again.world == w && again.id == if source' == source then Some(id) else None
  {
    assert IdOf(w.volumes, name) == id;
  }

  /** A snapshot that was created keeps its handle: after any further run that leaves it there, the same
      request answers the same id and changes nothing, and the same name for another source is refused
      and changes nothing. */
  lemma RepeatedSnapshot(w: World, name: string, source: int, lock: string, now: int, f: Script, t: nat,
                         ops: seq<Op>, lock': string, now': int, source': int, t': nat)
    requires Registered(w) && f.call(t')
    requires SnapshotOutcome(w, name, source, lock, now, f, t).id.Some?
    requires var r := SnapshotOutcome(w, name, source, lock, now, f, t);
             r.id.value in Run(r.world, ops, f, r.clock).volumes
    ensures var r := SnapshotOutcome(w, name, source, lock, now, f, t);
            var later := Run(r.world, ops, f, r.clock);
            var again := SnapshotOutcome(later, name, source', lock', now', f, t');
            again.world == later && again.id == if source' == source then r.id else None
  {
    var r := SnapshotOutcome(w, name, source, lock, now, f, t);
    StepKeepsRegistered(w, CreateSnapshot(name, source, lock, now), f, t);
    CreatedSnapshot(w, name, source, lock, now, f, t);
    RunKeepsRegistered(r.world, ops, f, r.clock);
    FoundAgain(Run(r.world, ops, f, r.clock), r.id.value, name, source, lock', now', source', f, t');
  }

  /** The text handle of a snapshot reads back to its id and protocol. */
  lemma SnapshotHandleReadsBack(w: World, name: string, source: int, lock: string, now: int, f: Script, t: nat, protocol: string)
    requires Registered(w) && w.next <= MAX_INT && protocol != TREEQ && Printable(Handle(0, protocol, 0))
    requires SnapshotOutcome(w, name, source, lock, now, f, t).id.Some?
    ensures var id := SnapshotOutcome(w, name, source, lock, now, f, t).id.value;
            Parse(Print(Handle(id, protocol, 0))) == Some(Handle(id, protocol, 0))
  {
    ParseOfPrint(Handle(SnapshotOutcome(w, name, source, lock, now, f, t).id.value, protocol, 0));
  }
}
