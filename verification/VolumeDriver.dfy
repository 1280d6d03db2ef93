/** The volume operations of the driver, call by call. */
module VolumeDriver {
  import opened Basics
  import opened Faults
  import opened Forest
  import opened SnapshotLocks
  import opened Snapshots
  import opened VolumeDeletion

  lemma ClearedAndRemoved(s: Store, id: int)
    requires id in s
    ensures ClearTags(s, id) - {id} == s - {id} && |s - {id}| < |s|
  {
  }

  /** An array's volumes, the calls it offers, and the driver's operations made of these calls. */
  class VolumeArray {
    var volumes: Store
    var next: int
    var clock: nat
    const script: Script

    constructor (volumes: Store, next: int, script: Script)
      ensures this.volumes == volumes && this.next == next && this.script == script && clock == 0
    {
      this.volumes, this.next, this.script, clock := volumes, next, script, 0;
    }

    ghost function Now(): World
      reads this
    {
      World(volumes, next)
    }

    // ----- calls of the array -----

    /** A call without effect on the volumes, such as reading pools, features or the NTP status. */
    method Query() returns (ok: bool)
      modifies this`clock
      ensures clock == old(clock) + 1 && ok == script.call(old(clock))
    {
      ok := script.call(clock);
      clock := clock + 1;
    }

    method GetVolume(id: int) returns (r: Reply<Volume>)
      modifies this`clock
      ensures clock == old(clock) + 1
      ensures r == if !script.call(old(clock)) then Lost else if id in volumes then Answer(volumes[id]) else NotFound
    {
      r := if !script.call(clock) then Lost else if id in volumes then Answer(volumes[id]) else NotFound;
      clock := clock + 1;
    }

    /** Children of `id`; empty when the first page is lost. */
    method GetVolumesByParentID(id: int) returns (children: set<int>)
      modifies this`clock
      ensures clock == old(clock) + 1
      ensures forall c :: c in children <==> script.listing(old(clock)) && c in volumes && volumes[c].parent == id
      ensures |children| > 0 <==> script.listing(old(clock)) && HasChildren(volumes, id)
    {
      ChildrenListed(volumes, id);
      children := if script.listing(clock) then set c | c in volumes && volumes[c].parent == id else {};
      clock := clock + 1;
    }

    method GetMetadata(id: int) returns (r: Reply<seq<string>>)
      modifies this`clock
      ensures clock == old(clock) + 1
      ensures r == if !script.call(old(clock)) || id !in volumes then Lost else Answer(volumes[id].tags)
    {
      r := if !script.call(clock) || id !in volumes then Lost else Answer(volumes[id].tags);
      clock := clock + 1;
    }

    method DeleteMetadata(id: int) returns (ok: bool)
      requires id in volumes
      modifies this`volumes, this`clock
      ensures clock == old(clock) + 1 && ok == script.call(old(clock))
      ensures volumes == if ok then ClearTags(old(volumes), id) else old(volumes)
    {
      ok := script.call(clock);
      clock := clock + 1;
      if ok { volumes := ClearTags(volumes, id); }
    }

    method RemoveVolume(id: int) returns (ok: bool)
      modifies this`volumes, this`clock
      ensures clock == old(clock) + 1 && ok == script.call(old(clock))
      ensures volumes == if ok then old(volumes) - {id} else old(volumes)
    {
      ok := script.call(clock);
      clock := clock + 1;
      if ok { volumes := volumes - {id}; }
    }

    /** Some volume of that name; the array's names are unique. */
    method GetVolumeByName(name: string) returns (r: Reply<int>)
      modifies this`clock
      ensures clock == old(clock) + 1
      ensures !script.call(old(clock)) ==> r == Lost
      ensures script.call(old(clock)) ==> if NameTaken(volumes, name) then r.Answer? && Named(volumes, r.value, name) else r == NotFound
    {
      var answered := script.call(clock);
      clock := clock + 1;
      if !answered {
        return Lost;
      }
      if id :| id in volumes && volumes[id].name == name {
        assert Named(volumes, id, name);
        return Answer(id);
      }
      return NotFound;
    }

    /** A new volume under the next id, unless the name is taken. */
    method CreateSnapshotVolume(source: int, name: string, locked: bool) returns (r: Reply<int>)
      requires source in volumes
      modifies this
      ensures clock == old(clock) + 1
      ensures r == if script.call(old(clock)) && !NameTaken(old(volumes), name) then Answer(old(next)) else Lost
      ensures Now() == if r.Answer? then Add(old(Now()), Child(old(volumes)[source], source, name, locked)) else old(Now())
    {
      var answered := script.call(clock);
      clock := clock + 1;
      if !answered {
        return Lost;
      }
      if id :| id in volumes && volumes[id].name == name {
        assert Named(volumes, id, name);
        return Lost;
      }
      r := Answer(next);
      volumes, next := volumes[next := Child(volumes[source], source, name, locked)], next + 1;
    }

    /** Turns a snapshot into a volume of its own. */
    method PromoteSnapshot(id: int) returns (ok: bool)
      requires id in volumes
      modifies this`volumes, this`clock
      ensures clock == old(clock) + 1 && ok == script.call(old(clock))
      ensures volumes == if ok then old(volumes)[id := old(volumes)[id].(parent := 0)] else old(volumes)
    {
      ok := script.call(clock);
      clock := clock + 1;
      if ok { volumes := volumes[id := volumes[id].(parent := 0)]; }
    }

    method PutMetadata(id: int, key: string) returns (ok: bool)
      requires id in volumes
      modifies this`volumes, this`clock
      ensures clock == old(clock) + 1 && ok == script.call(old(clock))
      ensures volumes == if ok then old(volumes)[id := Tagged(old(volumes)[id], key)] else old(volumes)
    {
      ok := script.call(clock);
      clock := clock + 1;
      if ok { volumes := volumes[id := Tagged(volumes[id], key)]; }
    }

    // ----- the driver -----

    method DeleteVolume(id: int) returns (ok: bool)
      modifies this`volumes, this`clock
      ensures Outcome(volumes, ok, clock) == DeleteOutcome(old(volumes), id, script, old(clock))
      decreases |volumes|, 0
    {
      hide HasChildren;
      var reply := GetVolume(id);
      if !reply.Answer? {
        return reply.NotFound?;
      }
      var vol := reply.value;
      if vol.locked {
        return false;
      }
      var children := GetVolumesByParentID(id);
      if |children| > 0 {
        ok := PutMetadata(id, TO_BE_DELETED);
        return;
      }
      ok := DeleteMetadata(id);
      if !ok { return; }
      ok := RemoveVolume(id);
      if !ok { return; }
      ClearedAndRemoved(old(volumes), id);
      if vol.parent != 0 {
        ok := DeleteMarkedParent(vol.parent);
      }
    }

    /** The rest of DeleteVolume: looks for the mark in the parent's metadata and deletes the parent if it is there. */
    method DeleteMarkedParent(parent: int) returns (ok: bool)
      modifies this`volumes, this`clock
      ensures Outcome(volumes, ok, clock) == ParentOutcome(old(volumes), parent, script, old(clock))
      decreases |volumes|, 1
    {
      var metadata := GetMetadata(parent);
      if !metadata.Answer? {
        return false;
      }
      var i := 0;
      while i < |metadata.value|
        invariant 0 <= i <= |metadata.value|
        invariant TO_BE_DELETED !in metadata.value[..i]
      {
        if metadata.value[i] == TO_BE_DELETED {
          ok := DeleteVolume(parent);
          return;
        }
        i := i + 1;
      }
      assert metadata.value[..i] == metadata.value;
      ok := true;
    }

    method CommonCreateSnapshot(name: string, source: int, lock: string, now: int) returns (id: Option<int>)
      requires UniqueNames(volumes)
      modifies this
      ensures Result(Now(), id, clock) == SnapshotOutcome(old(Now()), name, source, lock, now, script, old(clock))
    {
      id := None;
      var existing := GetVolumeByName(name);
      if existing.Lost? {
        return;
      } else if existing.Answer? {
        assert IdOf(volumes, name) == existing.value;
        if volumes[existing.value].parent == source {
          id := Some(existing.value);
        }
        return;
      }
      var parent := GetVolume(source);
      if !parent.Answer? { return; }
      var expiry := 0;
      if lock != "" {
        var ok := Query();
        if !ok { return; }
        var parsed := LockExpiry(now, lock);
        if parsed.None? { return; }
        expiry := parsed.value;
      }
      var created := CreateSnapshotVolume(source, name, lock != "" && expiry > now);
      if created.Answer? {
        id := Some(created.value);
      }
    }

    method CreateVolumeFromVolumeContent(name: string, source: int, size: int, pool: int, promote: bool)
        returns (id: Option<int>)
      modifies this
      ensures Result(Now(), id, clock) == CloneOutcome(old(Now()), name, source, size, pool, promote, script, old(clock))
    {
      hide NameTaken;
      id := None;
      var original := GetVolume(source);
      if !original.Answer? || original.value.size != size { return; }
      var ok := Query();
      if !ok || original.value.pool != pool { return; }
      var created := CreateSnapshotVolume(source, name, false);
      if !created.Answer? { return; }
      id := FinishClone(created.value, promote, old(Now()), Child(old(volumes)[source], source, name, false));
    }

    /** The rest of CreateVolumeFromVolumeContent: the new snapshot is read back, promoted if the array can, and tagged. */
    method FinishClone(clone: int, promote: bool, ghost w: World, ghost child: Volume) returns (id: Option<int>)
      requires Now() == Add(w, child) && clone == w.next && child.tags == []
      modifies this
      ensures Result(Now(), id, clock) == FinishOutcome(w, child, promote, script, old(clock))
    {
      id := None;
      var copy := GetVolume(clone);
      if !copy.Answer? { return; }
      var ok := Query();
      if !ok { return; }
      if promote {
        ok := PromoteSnapshot(clone);
        if !ok { return; }
      }
      ghost var root := if promote then child.(parent := 0) else child;
      assert Now() == Add(w, root) && Tagged(root, PV_NAME) == root.(tags := [PV_NAME]);
      ok := PutMetadata(clone, PV_NAME);
      assert ok ==> Now() == Add(w, root.(tags := [PV_NAME]));
      if ok {
        id := Some(clone);
      }
    }
  }
}
