/** Deletion of NFS file systems: the same collector as for volumes once a parent is marked,
    but the request itself never marks. */
module FileSystems {
  import opened Basics
  import opened Faults
  import opened Forest
  import VolumeDeletion

  // ----- one collector for volumes and file systems -----

  /** Started at a marked node, a `DeleteVolume` that reports success ends in the same forest as `DeleteParentFileSystem` (whose
      specification is CollectUp) exactly if no lost listing let it remove a volume with children; with every call answered
      it does report success and ends there. */
  lemma SameCollector(s: Store, id: int, f: Script, t: nat)
    requires VolumeDeletion.Inv(s) && id in s && Marked(s[id])
    ensures var o := VolumeDeletion.DeleteOutcome(s, id, f, t);
            (o.ok ==> (o.store == CollectUp(s, id) <==> !VolumeDeletion.RemovesAParent(s, id, f, t))) &&
            (Reliable(f) ==> o.ok && o.store == CollectUp(s, id))
  {
    VolumeDeletion.SuccessIsExact(s, id, f, t);
    if Reliable(f) { VolumeDeletion.ListingProtectsParents(s, id, f, t); }
    if HasChildren(s, id) {
      assert Mark(s, id) == s;
    }
  }

  // ----- requests for file systems -----

  /** `DeleteNFSVolume` with every call answered. A file system with children is sent an empty
      metadata update, so it stays as it is. */
  function NfsRequest(s: Store, id: int): Store {
    if id !in s || s[id].locked || HasChildren(s, id) then s
    else CollectUp(s - {id}, s[id].parent)
  }

  function RunNfs(s: Store, ids: seq<int>): Store
    decreases |ids|
  {
    if ids == [] then s else RunNfs(NfsRequest(s, ids[0]), ids[1..])
  }

  ghost predicate Before(ids: seq<int>, a: int, b: int) {
    exists i, j :: 0 <= i < j < |ids| && ids[i] == a && ids[j] == b
  }

  /** A store as these requests leave it: nothing is marked. */
  ghost predicate Unmarked(s: Store) {
    forall v :: v in s ==> !Marked(s[v])
  }

  lemma UnmarkedRequest(s: Store, id: int)
    requires Unmarked(s)
    ensures NfsRequest(s, id) == if id in s && !s[id].locked && !HasChildren(s, id) then s - {id} else s
    ensures Unmarked(NfsRequest(s, id))
  {
    if id in s {
      assert forall v :: v in s - {id} ==> (s - {id})[v] == s[v];
    }
  }

  lemma BeforeShift(ids: seq<int>, a: int, b: int)
    requires ids != []
    ensures Before(ids, a, b) <==> Before(ids[1..], a, b) || (a == ids[0] && b in ids[1..])
  {
    if Before(ids, a, b) {
      var i, j :| 0 <= i < j < |ids| && ids[i] == a && ids[j] == b;
      assert ids[1..][j - 1] == b;
      if i > 0 { assert ids[1..][i - 1] == a; }
    }
    if Before(ids[1..], a, b) {
      var i, j :| 0 <= i < j < |ids[1..]| && ids[1..][i] == a && ids[1..][j] == b;
      assert ids[i + 1] == a && ids[j + 1] == b;
    }
    if a == ids[0] && b in ids[1..] {
      var j :| 0 <= j < |ids[1..]| && ids[1..][j] == b;
      assert ids[j + 1] == b;
    }
  }

  lemma DistinctTail(ids: seq<int>)
    requires ids != [] && Distinct(ids)
    ensures Distinct(ids[1..]) && ids[0] !in ids[1..]
  {
    assert forall i :: 0 <= i < |ids[1..]| ==> ids[1..][i] == ids[i + 1];
  }

  lemma {:induction false} NeverRequestedStays(s: Store, ids: seq<int>, p: int)
    requires Unmarked(s) && p in s && p !in ids
    ensures p in RunNfs(s, ids)
    decreases |ids|
  {
    if ids != [] {
      UnmarkedRequest(s, ids[0]);
      NeverRequestedStays(NfsRequest(s, ids[0]), ids[1..], p);
    }
  }

  lemma {:induction false} LockedStays(s: Store, ids: seq<int>, v: int)
    requires Unmarked(s) && v in s && s[v].locked
    ensures v in RunNfs(s, ids)
    decreases |ids|
  {
    if ids != [] {
      UnmarkedRequest(s, ids[0]);
      LockedStays(NfsRequest(s, ids[0]), ids[1..], v);
    }
  }

  /** A parent requested before its child stays for ever. */
  lemma {:induction false} EarlyParentStays(s: Store, ids: seq<int>, c: int, p: int)
    requires Unmarked(s) && Distinct(ids) && c in s && p in s && s[c].parent == p && c != p
    requires !Before(ids, c, p) && c in ids
    ensures p in RunNfs(s, ids)
    decreases |ids|
  {
    UnmarkedRequest(s, ids[0]);
    DistinctTail(ids);
    BeforeShift(ids, c, p);
    var s' := NfsRequest(s, ids[0]);
    assert HasChildren(s, p);
    if ids[0] == c || ids[0] == p {
      NeverRequestedStays(s', ids[1..], p);
    } else {
      assert s'[c] == s[c];
      EarlyParentStays(s', ids[1..], c, p);
    }
  }

  lemma {:induction false} ChildrenFirstReclaims(s: Store, ids: seq<int>)
    requires Unmarked(s) && Distinct(ids)
    requires forall v :: v in s ==> v in ids && !s[v].locked
    requires forall c :: c in s && s[c].parent in s ==> Before(ids, c, s[c].parent)
    ensures RunNfs(s, ids) == map[]
    decreases |ids|
  {
    if ids == [] {
      assert forall v :: v !in s;
      assert s == map[];
    } else {
      var id := ids[0];
      UnmarkedRequest(s, id);
      DistinctTail(ids);
      forall c | c in s && s[c].parent in s ensures s[c].parent != id {
        BeforeShift(ids, c, s[c].parent);
        assert forall i :: 0 <= i < |ids[1..]| ==> ids[1..][i] in ids[1..];
      }
      var s' := NfsRequest(s, id);
      forall c | c in s' && s'[c].parent in s' ensures Before(ids[1..], c, s'[c].parent) {
        BeforeShift(ids, c, s[c].parent);
      }
      forall v | v in s' ensures v in ids[1..] {
        assert ids == [id] + ids[1..];
      }
      ChildrenFirstReclaims(s', ids[1..]);
    }
  }

  /** Requesting every file system once reclaims everything exactly if none is locked and children come before parents;
      volumes need no such order (Forest.ReclaimedIffAllRequested). */
  lemma NfsReclaimedIffChildrenFirst(s: Store, ids: seq<int>)
    requires IsForest(s) && Unmarked(s) && Distinct(ids)
    requires forall v :: v in s ==> v in ids
    ensures RunNfs(s, ids) == map[] <==>
            (forall v :: v in s ==> !s[v].locked) && forall c :: c in s && s[c].parent in s ==> Before(ids, c, s[c].parent)
  {
    var rank :| Ranks(s, rank);
    forall v | v in s && s[v].locked ensures v in RunNfs(s, ids) {
      LockedStays(s, ids, v);
    }
    forall c | c in s && s[c].parent in s && !Before(ids, c, s[c].parent)
      ensures s[c].parent in RunNfs(s, ids)
    {
      EarlyParentStays(s, ids, c, s[c].parent);
    }
    if (forall v :: v in s ==> !s[v].locked) && forall c :: c in s && s[c].parent in s ==> Before(ids, c, s[c].parent) {
      ChildrenFirstReclaims(s, ids);
    }
  }

  /** The smallest such case: a file system and its snapshot. */
  function ParentAndChild(): Store {
    map[1 := Volume("fs", 0, 0, 0, false, []), 2 := Volume("snap", 1, 0, 0, false, [])]
  }

  lemma UnmarkedPair()
    ensures IsForest(ParentAndChild()) && Unmarked(ParentAndChild())
  {
    assert Ranks(ParentAndChild(), map[1 := 0, 2 := 1]);
  }

  /** Requested parent first, the volume driver reclaims both and the NFS driver keeps the parent. */
  lemma ParentFirstDiffers()
    ensures RunRequests(ParentAndChild(), [1, 2]) == map[] && 1 in RunNfs(ParentAndChild(), [1, 2])
  {
    UnmarkedPair();
    ReclaimedIffAllRequested(ParentAndChild(), [1, 2]);
    assert !Before([1, 2], 2, 1);
    EarlyParentStays(ParentAndChild(), [1, 2], 2, 1);
  }

  // ----- the driver -----

  datatype Export = Export(id: int, fileSystem: int)

  function ExportsOf(exports: seq<Export>, fs: int): seq<Export> {
    if exports == [] then []
    else (if exports[0].fileSystem == fs then [exports[0]] else []) + ExportsOf(exports[1..], fs)
  }

  function WithoutId(exports: seq<Export>, id: int): (r: seq<Export>)
    ensures forall e :: e in r <==> e in exports && e.id != id
  {
    if exports == [] then []
    else (if exports[0].id == id then [] else [exports[0]]) + WithoutId(exports[1..], id)
  }

  /** One of the first `n` deletions, made from time `t` on, was for `e` and was answered. */
  ghost predicate DeletedWithin(mine: seq<Export>, e: Export, f: Script, t: nat, n: nat)
    requires n <= |mine|
  {
    exists i :: 0 <= i < n && mine[i] == e && f.call(t + i)
  }

  lemma {:induction false} ExportsOfMembers(exports: seq<Export>, fs: int)
    ensures forall e :: e in ExportsOf(exports, fs) <==> e in exports && e.fileSystem == fs
    decreases |exports|
  {
    if exports != [] {
      ExportsOfMembers(exports[1..], fs);
      assert exports == [exports[0]] + exports[1..];
    }
  }

  /** A file system that stays is as it was, but perhaps without its metadata. */
  ghost predicate OnlyClears(s: Store, s': Store) {
    forall v :: v in s' ==> v in s && (s'[v] == s[v] || s'[v] == s[v].(tags := []))
  }

  /** Exports of file systems that are kept, or that were not there before, stay. */
  ghost predicate KeepsExports(s: Store, kept: Store, before: seq<Export>, after: seq<Export>) {
    forall e :: e in before && (e.fileSystem !in s || e.fileSystem in kept) ==> e in after
  }

  class FileSystemArray {
    var forest: Store
    var exports: seq<Export>
    var clock: nat
    const script: Script

    constructor (forest: Store, exports: seq<Export>, script: Script)
      ensures this.forest == forest && this.exports == exports && this.script == script && clock == 0
    {
      this.forest, this.exports, this.script, clock := forest, exports, script, 0;
    }

    method Call() returns (ok: bool)
      modifies this`clock
      ensures clock == old(clock) + 1 && ok == script.call(old(clock))
    {
      ok := script.call(clock);
      clock := clock + 1;
    }

    /** Asks for the deletion of one export after the other and passes over the calls that are lost. */
    method DeleteExports(mine: seq<Export>)
      requires forall e, e' :: e in exports && e' in exports && e.id == e'.id ==> e == e'
      requires forall e :: e in mine ==> e in exports
      modifies this`exports, this`clock
      ensures clock == old(clock) + |mine|
      ensures forall e :: e in exports <==> e in old(exports) && !DeletedWithin(mine, e, script, old(clock), |mine|)
    {
      var i := 0;
      while i < |mine|
        invariant 0 <= i <= |mine| && clock == old(clock) + i
        invariant forall e :: e in exports <==> e in old(exports) && !DeletedWithin(mine, e, script, old(clock), i)
      {
        assert mine[i] in old(exports);
        var deleted := Call();
        if deleted {
          exports := WithoutId(exports, mine[i].id);
        }
        i := i + 1;
      }
    }

    /** Removes the exports, the metadata and the file system. A lost export deletion is passed over:
        after a reported success the file system is gone and exactly the exports
        whose deletion was lost still point to it. */
    method DeleteFileSystemComplete(id: int) returns (ok: bool)
      requires forall e, e' :: e in exports && e' in exports && e.id == e'.id ==> e == e'
      modifies this
      ensures var n := |ExportsOf(old(exports), id)|;
              ok <==> id in old(forest) && script.call(old(clock)) && script.call(old(clock) + 1 + n) && script.call(old(clock) + 2 + n)
      ensures ok ==> forest == old(forest) - {id}
      ensures !ok ==> forest == old(forest) || (id in old(forest) && forest == ClearTags(old(forest), id))
      ensures forall e :: e in exports ==> e in old(exports)
      ensures forall e :: e in old(exports) && e.fileSystem != id ==> e in exports
      ensures ok ==> var mine := ExportsOf(old(exports), id);
                forall e :: e in old(exports) && e.fileSystem == id ==>
                  (e !in exports <==> DeletedWithin(mine, e, script, old(clock) + 1, |mine|))
      ensures ok && Answers(script) ==> forall e :: e in exports ==> e.fileSystem != id
    {
      ok := Call();
      if !ok { return; }
      var mine := ExportsOf(exports, id);
      ExportsOfMembers(exports, id);
      DeleteExports(mine);
      ok := Call();
      if !ok || id !in forest { return false; }
      forest := ClearTags(forest, id);
      ok := Call();
      if !ok { return; }
      forest := forest - {id};
      assert forest == old(forest) - {id};
    }

    method GetFileSystemsByParentID(id: int) returns (children: set<int>)
      ensures forall c :: c in children <==> c in forest && forest[c].parent == id
      ensures |children| > 0 <==> HasChildren(forest, id)
    {
      children := set c | c in forest && forest[c].parent == id;
      VolumeDeletion.ChildrenListed(forest, id);
    }

    /** The loop that looks for the mark. */
    method IsMarked(metadata: seq<string>) returns (toBeDeleted: bool)
      ensures toBeDeleted <==> TO_BE_DELETED in metadata
    {
      toBeDeleted := false;
      var i := 0;
      while i < |metadata|
        invariant 0 <= i <= |metadata|
        invariant toBeDeleted <==> TO_BE_DELETED in metadata[..i]
      {
        if metadata[i] == TO_BE_DELETED { toBeDeleted := true; }
        i := i + 1;
      }
      assert metadata[..i] == metadata;
    }

    /** Removes a childless file system and collects upwards from its parent, as both methods below do. */
    method RemoveAndCollect(id: int) returns (ok: bool)
      requires VolumeDeletion.Inv(forest) && id in forest && !HasChildren(forest, id)
      requires forall e, e' :: e in exports && e' in exports && e.id == e'.id ==> e == e'
      modifies this
      ensures var kept := CollectUp(old(forest) - {id}, old(forest)[id].parent);
              (ok ==> forest == kept) && kept.Keys <= forest.Keys <= old(forest).Keys &&
              KeepsExports(old(forest), kept, old(exports), exports)
      ensures VolumeDeletion.Inv(forest) && OnlyClears(old(forest), forest)
      ensures forall e :: e in exports ==> e in old(exports)
      ensures Answers(script) ==>
                ok && var kept := CollectUp(old(forest) - {id}, old(forest)[id].parent);
                forall e :: e in exports && e.fileSystem in old(forest) ==> e.fileSystem in kept
      decreases |forest|, 0
    {
      var parent := forest[id].parent;
      VolumeDeletion.CollectUpShrinks(forest - {id}, parent);
      VolumeDeletion.ClearTagsKeepsInv(forest, id);
      VolumeDeletion.RemovalKeepsInv(forest, id);
      ok := DeleteFileSystemComplete(id);
      if !ok { return; }
      if parent != 0 {
        ok := DeleteParentFileSystem(parent);
      }
    }

    /** Collects upwards from `id`; a reported success is exactly CollectUp, a failure stops on the way. */
    method DeleteParentFileSystem(id: int) returns (ok: bool)
      requires VolumeDeletion.Inv(forest)
      requires forall e, e' :: e in exports && e' in exports && e.id == e'.id ==> e == e'
      modifies this
      ensures ok ==> forest == CollectUp(old(forest), id)
      ensures VolumeDeletion.Inv(forest)
      ensures CollectUp(old(forest), id).Keys <= forest.Keys <= old(forest).Keys
      ensures OnlyClears(old(forest), forest)
      ensures forall e :: e in exports ==> e in old(exports)
      ensures KeepsExports(old(forest), CollectUp(old(forest), id), old(exports), exports)
      ensures Answers(script) ==>
                (ok <==> id in old(forest)) &&
                forall e :: e in exports && e.fileSystem in old(forest) ==> e.fileSystem in CollectUp(old(forest), id)
      decreases |forest|, 1
    {
      hide VolumeDeletion.Inv, HasChildren;
      VolumeDeletion.CollectUpShrinks(forest, id);
      ok := Call();
      if !ok { return; }
      if id !in forest { return false; }
      var metadata := forest[id].tags;
      var toBeDeleted := IsMarked(metadata);
      ok := Call();
      if !ok { return; }
      var children := GetFileSystemsByParentID(id);
      if |children| == 0 && toBeDeleted {
        ok := Call();
        if !ok { return; }
        ok := RemoveAndCollect(id);
      }
    }

    /** `DeleteNFSVolume`: a reported success is exactly NfsRequest. */
    method DeleteNFSVolume(id: int) returns (ok: bool)
      requires VolumeDeletion.Inv(forest)
      requires forall e, e' :: e in exports && e' in exports && e.id == e'.id ==> e == e'
      modifies this
      ensures ok ==> id in old(forest) && !old(forest)[id].locked && forest == NfsRequest(old(forest), id)
      ensures VolumeDeletion.Inv(forest)
      ensures NfsRequest(old(forest), id).Keys <= forest.Keys <= old(forest).Keys
      ensures OnlyClears(old(forest), forest)
      ensures forall e :: e in exports ==> e in old(exports)
      ensures id in old(forest) ==> KeepsExports(old(forest), CollectUp(old(forest) - {id}, old(forest)[id].parent), old(exports), exports)
      ensures id !in old(forest) || old(forest)[id].locked || HasChildren(old(forest), id) ==> exports == old(exports)
      ensures Answers(script) ==>
                (ok <==> id in old(forest) && !old(forest)[id].locked) &&
                forall e :: e in exports && e.fileSystem in old(forest) ==> e.fileSystem in NfsRequest(old(forest), id)
    {
      if id in forest { VolumeDeletion.CollectUpShrinks(forest - {id}, forest[id].parent); }
      ok := Call();
      if !ok { return; }
      if id !in forest || forest[id].locked { return false; }
      ok := Call();
      if !ok { return; }
      var children := GetFileSystemsByParentID(id);
      if |children| > 0 {
        ok := Call();  // an update with no metadata keys in it
        return;
      }
      ok := RemoveAndCollect(id);
    }
  }

  /** File system 1 with export 7, and a script that loses the second call, the deletion of the export: the deletion of the
      file system reports success and the export still points to it. */
  method ExportOutlivesFileSystem() returns (ok: bool, forest: Store, exports: seq<Export>)
    ensures ok && forest == map[] && Export(7, 1) in exports
  {
    var fs := new FileSystemArray(map[1 := Volume("fs", 0, 0, 0, false, [])], [Export(7, 1)], Script(n => n != 1, n => true));
    assert ExportsOf(fs.exports, 1) == [Export(7, 1)] by { assert fs.exports[1..] == []; }
    assert fs.exports[0] in fs.exports;
    ok := fs.DeleteFileSystemComplete(1);
    forest, exports := fs.forest, fs.exports;
  }
}
