/** `DeleteVolume` with calls to the array that may fail at any point. */
module VolumeDeletion {
  import opened Faults
  import opened Forest

  datatype Outcome = Outcome(store: Store, ok: bool, clock: nat)

  /** Store, answer and clock after `DeleteVolume(id)`. The store shrinks before each recursive call. */
  function DeleteOutcome(s: Store, id: int, f: Script, t: nat): Outcome
    decreases |s|, 0
  {
    if !f.call(t) then Outcome(s, false, t + 1)
    else if id !in s then Outcome(s, true, t + 1)
    else if s[id].locked then Outcome(s, false, t + 1)
    else if f.listing(t + 1) && HasChildren(s, id) then
      if f.call(t + 2) then Outcome(Mark(s, id), true, t + 3) else Outcome(s, false, t + 3)
    else if !f.call(t + 2) then Outcome(s, false, t + 3)
    else if !f.call(t + 3) then Outcome(ClearTags(s, id), false, t + 4)
    else if s[id].parent == 0 then Outcome(s - {id}, true, t + 4)
    else ParentOutcome(s - {id}, s[id].parent, f, t + 4)
  }

  /** The tail of the call: look at the parent's metadata and delete it too if it is marked. */
  function ParentOutcome(s: Store, p: int, f: Script, t: nat): Outcome
    decreases |s|, 1
  {
    if !f.call(t) || p !in s then Outcome(s, false, t + 1)
    else if Marked(s[p]) then DeleteOutcome(s, p, f, t + 1)
    else Outcome(s, true, t + 1)
  }

  ghost predicate Inv(s: Store) {
    IsForest(s) && MarkedUnlocked(s)
  }

  /** Some level of the call goes through to the removal of a volume that has children. */
  ghost predicate RemovesAParent(s: Store, id: int, f: Script, t: nat)
    decreases |s|
  {
    f.call(t) && id in s && !s[id].locked && f.call(t + 2) && f.call(t + 3) &&
    if HasChildren(s, id) then !f.listing(t + 1)
    else
      var s1, p := s - {id}, s[id].parent;
      p != 0 && f.call(t + 4) && p in s1 && Marked(s1[p]) && RemovesAParent(s1, p, f, t + 5)
  }

  /** While the child listings answer this cannot happen. */
  lemma {:induction false} ListingProtectsParents(s: Store, id: int, f: Script, t: nat)
    requires Listing(f)
    ensures !RemovesAParent(s, id, f, t)
    decreases |s|
  {
    if id in s { ListingProtectsParents(s - {id}, s[id].parent, f, t + 5); }
  }

  // ----- a call that reports success did exactly what was asked -----

  lemma {:induction false} SuccessIsRequest(s: Store, id: int, f: Script, t: nat)
    requires Inv(s) && !RemovesAParent(s, id, f, t)
    ensures var o := DeleteOutcome(s, id, f, t);
            (o.ok ==> o.store == Request(s, id) && (id in s ==> !s[id].locked)) &&
            (Reliable(f) ==> (o.ok <==> id !in s || !s[id].locked))
    decreases |s|
  {
    if f.call(t) && id in s && !s[id].locked && !HasChildren(s, id) && f.call(t + 2) && f.call(t + 3) {
      var p, s1 := s[id].parent, s - {id};
      RemovalKeepsInv(s, id);
      if p != 0 && f.call(t + 4) && Marked(s1[p]) {
        SuccessIsRequest(s1, p, f, t + 5);
        if HasChildren(s1, p) {
          assert Mark(s1, p) == s1;
        }
      }
    }
  }

  /** A call that reports success has the effect of the fault-free request, whatever was lost, exactly if it removes no volume with
      children; with every call answered it is refused only for a lock. */
  lemma SuccessIsExact(s: Store, id: int, f: Script, t: nat)
    requires Inv(s)
    ensures var o := DeleteOutcome(s, id, f, t);
            (o.ok ==> (o.store == Request(s, id) <==> !RemovesAParent(s, id, f, t))) &&
            (o.ok && id in s ==> !s[id].locked) &&
            (Reliable(f) ==> (o.ok <==> id !in s || !s[id].locked))
  {
    if RemovesAParent(s, id, f, t) {
      OrphansIffListingLost(s, id, f, t);
      RequestKeepsInv(s, id);
      if Reliable(f) { ListingProtectsParents(s, id, f, t); }
    } else {
      SuccessIsRequest(s, id, f, t);
    }
  }

  lemma {:induction false} CollectUpKeepsInv(s: Store, p: int)
    requires Inv(s)
    ensures Inv(CollectUp(s, p)) && CollectUp(s, p).Keys <= s.Keys
    decreases |s|
  {
    if p in s && Marked(s[p]) && !HasChildren(s, p) {
      RemovalKeepsInv(s, p);
      CollectUpKeepsInv(s - {p}, s[p].parent);
    }
  }

  lemma RequestKeepsInv(s: Store, id: int)
    requires Inv(s)
    ensures Inv(Request(s, id))
  {
    if id in s && !s[id].locked {
      MarkKeepsInv(s, id);
      if !HasChildren(s, id) {
        RemovalKeepsInv(s, id);
        CollectUpKeepsInv(s - {id}, s[id].parent);
      }
    }
  }

  lemma RemovalKeepsInv(s: Store, id: int)
    requires Inv(s) && id in s && !HasChildren(s, id)
    ensures Inv(s - {id})
    ensures s[id].parent == 0 || s[id].parent in s - {id}
  {
    var rank :| Ranks(s, rank);
    assert Ranks(s - {id}, rank);
    var s1 := s - {id};
    assert forall v :: v in s1 ==> s1[v] == s[v];
  }

  lemma ClearTagsKeepsInv(s: Store, id: int)
    requires Inv(s) && id in s
    ensures Inv(ClearTags(s, id))
  {
    var rank :| Ranks(s, rank);
    assert Ranks(ClearTags(s, id), rank);
  }

  lemma MarkKeepsInv(s: Store, id: int)
    requires Inv(s) && id in s && !s[id].locked
    ensures Inv(Mark(s, id))
  {
    var rank :| Ranks(s, rank);
    assert Ranks(Mark(s, id), rank);
  }

  // ----- safety at every point where a call can stop -----

  /** Volumes disappear and tags change, nothing else. */
  ghost predicate Trims(s: Store, s': Store) {
    s'.Keys <= s.Keys && forall v :: v in s' ==> s'[v].(tags := s[v].tags) == s[v]
  }

  ghost predicate LockedStay(s: Store, s': Store) {
    forall v :: v in s && s[v].locked ==> v in s' && s'[v] == s[v]
  }

  lemma TrimsItself(s: Store, id: int)
    ensures Trims(s, s) && Trims(s, s - {id}) && (id in s ==> Trims(s, Mark(s, id)) && Trims(s, ClearTags(s, id)))
  {
  }

  lemma TrimsMore(s: Store, id: int, s': Store)
    requires Trims(s - {id}, s')
    ensures Trims(s, s')
  {
  }

  /** Whatever is lost, the child listing included, a call only removes and retags. */
  lemma {:induction false} StoppedCallTrims(s: Store, id: int, f: Script, t: nat)
    ensures Trims(s, DeleteOutcome(s, id, f, t).store)
    decreases |s|
  {
    hide Trims, Mark, ClearTags, HasChildren;
    TrimsItself(s, id);
    if id in s {
      var s1, p := s - {id}, s[id].parent;
      StoppedCallTrims(s1, p, f, t + 5);
      TrimsMore(s, id, DeleteOutcome(s1, p, f, t + 5).store);
    }
  }

  /** Whatever is lost, no locked volume is touched or marked. */
  lemma {:induction false} StoppedCallSparesLocked(s: Store, id: int, f: Script, t: nat)
    requires MarkedUnlocked(s)
    ensures var s' := DeleteOutcome(s, id, f, t).store; LockedStay(s, s') && MarkedUnlocked(s')
    decreases |s|
  {
    if id in s {
      var s1 := s - {id};
      assert MarkedUnlocked(s1);
      StoppedCallSparesLocked(s1, s[id].parent, f, t + 5);
      assert !s[id].locked ==> forall s' :: LockedStay(s1, s') ==> LockedStay(s, s');
    }
  }

  lemma TrimKeepsAcyclic(s: Store, s': Store)
    requires Acyclic(s) && Trims(s, s')
    ensures Acyclic(s')
  {
    var rank :| Ranks(s, rank);
    assert Ranks(s', rank);
  }

  /** Wherever the call stops there is no cycle, no locked volume is touched, and no volume is locked and marked. There is no orphan,
      and nothing is gone that the fault-free request keeps, exactly if it removes no volume with children. */
  lemma StoppedCallIsSafe(s: Store, id: int, f: Script, t: nat)
    requires Inv(s)
    ensures var s' := DeleteOutcome(s, id, f, t).store;
            Trims(s, s') && Acyclic(s') && LockedStay(s, s') && MarkedUnlocked(s') &&
            (Closed(s') <==> !RemovesAParent(s, id, f, t)) &&
            (Request(s, id).Keys <= s'.Keys <==> !RemovesAParent(s, id, f, t))
  {
    StoppedCallTrims(s, id, f, t);
    StoppedCallSparesLocked(s, id, f, t);
    TrimKeepsAcyclic(s, DeleteOutcome(s, id, f, t).store);
    OrphansIffListingLost(s, id, f, t);
    RemovesNoMoreIff(s, id, f, t);
  }

  lemma {:induction false} RemovesNoMoreIff(s: Store, id: int, f: Script, t: nat)
    requires Inv(s)
    ensures Request(s, id).Keys <= DeleteOutcome(s, id, f, t).store.Keys <==> !RemovesAParent(s, id, f, t)
    decreases |s|
  {
    CollectShrinks(s, id);
    if f.call(t) && id in s && !s[id].locked {
      var p, s1 := s[id].parent, s - {id};
      NeverGrows(s1, p, f, t + 5);
      if HasChildren(s, id) {
        assert id in Request(s, id) && id !in s1;
      } else {
        RemovalKeepsInv(s, id);
        CollectUpShrinks(s1, p);
        if f.call(t + 2) && f.call(t + 3) && p != 0 && f.call(t + 4) && Marked(s1[p]) {
          RemovesNoMoreIff(s1, p, f, t + 5);
          assert CollectUp(s1, p).Keys == Request(s1, p).Keys;
        }
      }
    }
  }

  lemma CollectShrinks(s: Store, id: int)
    ensures Request(s, id).Keys <= s.Keys
  {
    if id in s { CollectUpShrinks(s - {id}, s[id].parent); }
  }

  lemma {:induction false} CollectUpShrinks(s: Store, p: int)
    ensures CollectUp(s, p).Keys <= s.Keys
    decreases |s|
  {
    if p in s { CollectUpShrinks(s - {p}, s[p].parent); }
  }

  /** Some level above the first finds the volume it was started for locked. */
  ghost predicate ReadsLockAbove(s: Store, id: int, f: Script, t: nat)
    decreases |s|
  {
    f.call(t) && id in s && !s[id].locked && !(f.listing(t + 1) && HasChildren(s, id)) && f.call(t + 2) && f.call(t + 3) &&
    var s1, p := s - {id}, s[id].parent;
    p != 0 && f.call(t + 4) && p in s1 && Marked(s1[p]) &&
    ((f.call(t + 5) && s1[p].locked) || ReadsLockAbove(s1, p, f, t + 5))
  }

  /** The upward recursion never meets a locked volume, at any level and with any calls lost, the child listing included. */
  lemma {:induction false} RecursionMeetsNoLock(s: Store, id: int, f: Script, t: nat)
    requires MarkedUnlocked(s)
    ensures !ReadsLockAbove(s, id, f, t)
    decreases |s|
  {
    if id in s {
      var s1 := s - {id};
      assert forall v :: v in s1 ==> s1[v] == s[v];
      RecursionMeetsNoLock(s1, s[id].parent, f, t + 5);
    }
  }

  // ----- what a call does to the volumes that stay -----

  /** Whatever is lost: a volume that stays is as it was, or is the one asked for and only gained the mark, or lost its metadata
      in a call that reports failure. */
  ghost predicate Retags(s: Store, s': Store, id: int, ok: bool) {
    forall v :: v in s' ==>
      v in s && (s'[v] == s[v] || (v == id && GainsMark(s[v], s'[v])) || (!ok && s'[v] == s[v].(tags := [])))
  }

  lemma {:induction false} StoppedCallRetags(s: Store, id: int, f: Script, t: nat)
    ensures var o := DeleteOutcome(s, id, f, t); Retags(s, o.store, id, o.ok)
    decreases |s|
  {
    if id in s {
      var s1, p := s - {id}, s[id].parent;
      AddTagGainsMark(s[id]);
      if p in s1 {
        AddTagGainsMark(s1[p]);
        StoppedCallRetags(s1, p, f, t + 5);
      }
    }
  }

  /** The metadata is deleted first: a call that is lost before the removal leaves the volume there without any. */
  lemma LostRemovalClears(s: Store, id: int, f: Script, t: nat)
    requires id in s && !s[id].locked && !HasChildren(s, id)
    requires f.call(t) && f.call(t + 2) && !f.call(t + 3)
    ensures var o := DeleteOutcome(s, id, f, t); !o.ok && o.store == s[id := s[id].(tags := [])]
  {
  }

  // ----- runs of calls that all report success -----

  /** The store after the calls, and whether every one of them reported success. */
  function RunDeletes(s: Store, ids: seq<int>, f: Script, t: nat): (Store, bool)
    decreases |ids|
  {
    if ids == [] then (s, true)
    else
      var o := DeleteOutcome(s, ids[0], f, t);
      var (s', ok) := RunDeletes(o.store, ids[1..], f, o.clock);
      (s', o.ok && ok)
  }

  /** Some call of the run removes a volume with children. */
  ghost predicate RunRemovesAParent(s: Store, ids: seq<int>, f: Script, t: nat)
    decreases |ids|
  {
    ids != [] &&
    (RemovesAParent(s, ids[0], f, t) ||
     var o := DeleteOutcome(s, ids[0], f, t); RunRemovesAParent(o.store, ids[1..], f, o.clock))
  }

  lemma {:induction false} ListingProtectsRun(s: Store, ids: seq<int>, f: Script, t: nat)
    requires Listing(f)
    ensures !RunRemovesAParent(s, ids, f, t)
    decreases |ids|
  {
    if ids != [] {
      var o := DeleteOutcome(s, ids[0], f, t);
      ListingProtectsParents(s, ids[0], f, t);
      ListingProtectsRun(o.store, ids[1..], f, o.clock);
    }
  }

  ghost predicate Orphan(s: Store, c: int) {
    c in s && s[c].parent != 0 && s[c].parent !in s
  }

  lemma ClosedIffNoOrphan(s: Store)
    requires 0 !in s
    ensures Closed(s) <==> forall c :: !Orphan(s, c)
  {
    assert forall c :: c in s && !Orphan(s, c) ==> s[c].parent == 0 || s[c].parent in s;
  }

  /** A call that reports success never removes an orphan: the read of the missing parent's metadata fails. */
  lemma {:induction false} OrphanStays(s: Store, id: int, f: Script, t: nat, c: int)
    requires Orphan(s, c) && DeleteOutcome(s, id, f, t).ok
    ensures Orphan(DeleteOutcome(s, id, f, t).store, c)
    decreases |s|
  {
    if id in s && !(f.listing(t + 1) && HasChildren(s, id)) && s[id].parent in s - {id} {
      var s1, p := s - {id}, s[id].parent;
      assert c != id ==> c in s1 && s1[c] == s[c];
      if p != 0 && Marked(s1[p]) { OrphanStays(s1, p, f, t + 5, c); }
    }
  }

  lemma {:induction false} OrphanStaysInRun(s: Store, ids: seq<int>, f: Script, t: nat, c: int)
    requires Orphan(s, c) && RunDeletes(s, ids, f, t).1
    ensures Orphan(RunDeletes(s, ids, f, t).0, c)
    decreases |ids|
  {
    if ids != [] {
      var o := DeleteOutcome(s, ids[0], f, t);
      OrphanStays(s, ids[0], f, t, c);
      OrphanStaysInRun(o.store, ids[1..], f, o.clock, c);
    }
  }

  lemma {:induction false} RunRequestsKeepsInv(s: Store, ids: seq<int>)
    requires Inv(s)
    ensures Inv(RunRequests(s, ids))
    decreases |ids|
  {
    if ids != [] {
      RequestKeepsInv(s, ids[0]);
      RunRequestsKeepsInv(Request(s, ids[0]), ids[1..]);
    }
  }

  /** A run of calls that all report success is the run of the fault-free requests exactly if none of them removes a volume
      with children; while child listings answer none does (ListingProtectsRun). */
  lemma {:induction false} RunDeletesIsRunRequests(s: Store, ids: seq<int>, f: Script, t: nat)
    requires Inv(s) && RunDeletes(s, ids, f, t).1
    ensures RunDeletes(s, ids, f, t).0 == RunRequests(s, ids) <==> !RunRemovesAParent(s, ids, f, t)
    decreases |ids|
  {
    if ids != [] {
      var o := DeleteOutcome(s, ids[0], f, t);
      StoppedCallIsSafe(s, ids[0], f, t);
      if RemovesAParent(s, ids[0], f, t) {
        ClosedIffNoOrphan(o.store);
        var c :| Orphan(o.store, c);
        OrphanStaysInRun(o.store, ids[1..], f, o.clock, c);
        RunRequestsKeepsInv(s, ids);
      } else {
        SuccessIsExact(s, ids[0], f, t);
        RunDeletesIsRunRequests(o.store, ids[1..], f, o.clock);
      }
    }
  }

  // ----- reclamation -----

  lemma {:induction false} SuccessKeepsMarks(s: Store, id: int, f: Script, t: nat)
    requires DeleteOutcome(s, id, f, t).ok
    ensures var s' := DeleteOutcome(s, id, f, t).store;
            s'.Keys <= s.Keys && (id in s' ==> Marked(s'[id])) && forall v :: v in s' && Marked(s[v]) ==> Marked(s'[v])
    decreases |s|
  {
    NeverGrows(s, id, f, t);
    if id in s && !(f.listing(t + 1) && HasChildren(s, id)) && s[id].parent in s - {id} {
      var s1, p := s - {id}, s[id].parent;
      if p != 0 && Marked(s1[p]) { SuccessKeepsMarks(s1, p, f, t + 5); }
    }
  }

  /** A volume that is neither asked for nor marked is not touched, whatever is lost. */
  lemma {:induction false} UnaskedStays(s: Store, id: int, f: Script, t: nat, v: int)
    requires v in s && v != id && !Marked(s[v])
    ensures var s' := DeleteOutcome(s, id, f, t).store; v in s' && s'[v] == s[v]
    decreases |s|
  {
    if id in s {
      var s1, p := s - {id}, s[id].parent;
      assert v in s1 && s1[v] == s[v];
      if p != v { UnaskedStays(s1, p, f, t + 5, v); }
    }
  }

  lemma {:induction false} UnaskedStaysInRun(s: Store, ids: seq<int>, f: Script, t: nat, v: int)
    requires v in s && v !in ids && !Marked(s[v])
    ensures v in RunDeletes(s, ids, f, t).0
    decreases |ids|
  {
    if ids != [] {
      var o := DeleteOutcome(s, ids[0], f, t);
      UnaskedStays(s, ids[0], f, t, v);
      UnaskedStaysInRun(o.store, ids[1..], f, o.clock, v);
    }
  }

  /** After calls that all report success, what was asked for or marked is gone or marked, and everything marked has a child. */
  lemma {:induction false} SuccessfulRunWaits(s: Store, ids: seq<int>, f: Script, t: nat)
    requires 0 !in s && NoMarkedLeaf(s) && RunDeletes(s, ids, f, t).1
    ensures var s' := RunDeletes(s, ids, f, t).0;
            Trims(s, s') && NoMarkedLeaf(s') && forall v :: v in s' && (Marked(s[v]) || v in ids) ==> Marked(s'[v])
    decreases |ids|
  {
    if ids != [] {
      var o := DeleteOutcome(s, ids[0], f, t);
      StoppedCallTrims(s, ids[0], f, t);
      SuccessKeepsMarks(s, ids[0], f, t);
      SuccessLeavesNoMarkedLeaf(s, ids[0], f, t);
      SuccessfulRunWaits(o.store, ids[1..], f, o.clock);
    }
  }

  lemma {:induction false} LowestVolume(s: Store, rank: map<int, nat>, bound: nat, v: int) returns (leaf: int)
    requires Bounds(s, rank, bound) && v in s
    ensures leaf in s && !HasChildren(s, leaf)
    decreases bound - rank[v]
  {
    leaf := v;
    if c :| c in s && s[c].parent == v {
      leaf := LowestVolume(s, rank, bound, c);
    }
  }

  /** Without a cycle not every volume can have a child. */
  lemma AllWaitingIsNone(s: Store)
    requires Acyclic(s) && forall v :: v in s ==> HasChildren(s, v)
    ensures s == map[]
  {
    var rank :| Ranks(s, rank);
    var bound := RankBound(s, rank, s.Keys);
    if v :| v in s {
      var leaf := LowestVolume(s, rank, bound, v);
    } else {
      assert forall v :: v !in s;
      assert s == map[];
    }
  }

  /** Calls that all report success, in any order and with repetitions, leave the array empty exactly if they ask for every volume
      that was not marked already: for every script, lost child listings included. */
  lemma AnyOrderReclaims(s: Store, ids: seq<int>, f: Script, t: nat)
    requires Acyclic(s) && 0 !in s && NoMarkedLeaf(s) && RunDeletes(s, ids, f, t).1
    ensures RunDeletes(s, ids, f, t).0 == map[] <==> forall v :: v in s ==> Marked(s[v]) || v in ids
  {
    var s' := RunDeletes(s, ids, f, t).0;
    SuccessfulRunWaits(s, ids, f, t);
    if forall v :: v in s ==> Marked(s[v]) || v in ids {
      TrimKeepsAcyclic(s, s');
      AllWaitingIsNone(s');
    } else {
      var v :| v in s && !Marked(s[v]) && v !in ids;
      UnaskedStaysInRun(s, ids, f, t, v);
    }
  }

  // ----- retrying a failed call -----

  /** A failed call that left the volume there left it alone or took its tags. */
  lemma StillThere(s: Store, id: int, f: Script, t: nat)
    requires Inv(s) && Listing(f)
    requires var o := DeleteOutcome(s, id, f, t); !o.ok && id in o.store
    ensures var s' := DeleteOutcome(s, id, f, t).store;
            s' == s || (!s[id].locked && !HasChildren(s, id) && s' == ClearTags(s, id))
  {
    ListingProtectsParents(s, id, f, t);
    StoppedCallIsSafe(s, id, f, t);
    if f.call(t) && !s[id].locked && !HasChildren(s, id) && f.call(t + 2) && f.call(t + 3) {
      RemovalKeepsInv(s, id);
      if s[id].parent != 0 && f.call(t + 4) && Marked(s[s[id].parent]) {
        StoppedCallIsSafe(s - {id}, s[id].parent, f, t + 5);
      }
    }
  }

  /** `id` is the last volume that a marked parent waits for, and nothing keeps `id` from being removed. */
  ghost predicate LastChildOfMarked(s: Store, id: int) {
    id in s && !s[id].locked && !HasChildren(s, id) &&
    var p := s[id].parent;
    p in s && Marked(s[p]) && OnlyChild(s, p, id)
  }

  ghost predicate RetryConverges(s: Store, id: int, f: Script, t: nat) {
    var o := DeleteOutcome(s, id, f, t);
    o.ok || Request(o.store, id) == Request(s, id)
  }

  /** Any failed call, retried until it succeeds, gives what one clean call would have given, and no failed
      call leaves a marked volume without a child; both hold exactly of the volumes that are not the last child
      of a marked parent. */
  lemma RetryConvergesIff(s: Store, id: int)
    requires Inv(s)
    ensures (forall f, t :: Listing(f) ==> RetryConverges(s, id, f, t)) <==> !LastChildOfMarked(s, id)
    ensures NoMarkedLeaf(s) ==>
              ((forall f, t :: Listing(f) ==> NoMarkedLeaf(DeleteOutcome(s, id, f, t).store)) <==> !LastChildOfMarked(s, id))
  {
    if LastChildOfMarked(s, id) {
      var f := Script(n => n != 4, n => true);
      LostAfterLastChild(s, id, f);
    } else {
      forall f, t | Listing(f) ensures RetryConverges(s, id, f, t) {
        FailureConverges(s, id, f, t);
      }
      forall f, t | Listing(f) && NoMarkedLeaf(s) ensures NoMarkedLeaf(DeleteOutcome(s, id, f, t).store) {
        MarkedLeafIffStalled(s, id, f, t);
        StallsOnlyAtLastChild(s, id, f, t);
      }
    }
  }

  /** The call that loses the parent's metadata: the parent stays, marked and childless, and a retry finds nothing to do. */
  lemma LostAfterLastChild(s: Store, id: int, f: Script)
    requires Inv(s) && LastChildOfMarked(s, id) && Listing(f) && forall n :: f.call(n) <==> n != 4
    ensures !RetryConverges(s, id, f, 0) && !NoMarkedLeaf(DeleteOutcome(s, id, f, 0).store)
  {
    var s1, p := s - {id}, s[id].parent;
    RemovalKeepsInv(s, id);
    assert !HasChildren(s1, p);
    assert DeleteOutcome(s, id, f, 0) == Outcome(s1, false, 5);
    CollectUpShrinks(s1 - {p}, s1[p].parent);
    assert p in s1 && p !in Request(s, id);
  }

  lemma FailureConverges(s: Store, id: int, f: Script, t: nat)
    requires Inv(s) && Listing(f) && !LastChildOfMarked(s, id)
    ensures RetryConverges(s, id, f, t)
  {
    var o := DeleteOutcome(s, id, f, t);
    if !o.ok && id in o.store {
      StillThere(s, id, f, t);
      if o.store != s {
        assert o.store - {id} == s - {id};
        assert !HasChildren(o.store, id);
      }
    } else if !o.ok && id in s {
      var s1, p := s - {id}, s[id].parent;
      RemovalKeepsInv(s, id);
      assert o == ParentOutcome(s1, p, f, t + 4) && p in s1;
      if c :| c in s && s[c].parent == p && c != id {
        assert c in s1 && s1[c].parent == p;
        assert HasChildren(s1, p);
      }
      assert Marked(s1[p]) ==> HasChildren(s1, p) && (DeleteOutcome(s1, p, f, t + 5).ok || DeleteOutcome(s1, p, f, t + 5).store == s1);
    }
  }

  // ----- marked volumes without a child -----

  /** The call ends with a marked volume that has no child: it never got to remove it, or it removed the last child and
      lost the array before it had read the parent, or that happens on a level above. */
  ghost predicate Stalls(s: Store, id: int, f: Script, t: nat)
    decreases |s|
  {
    id in s &&
    if f.call(t) && !s[id].locked && !(f.listing(t + 1) && HasChildren(s, id)) && f.call(t + 2) then
      var s1, p := s - {id}, s[id].parent;
      f.call(t + 3) && p in s1 && Marked(s1[p]) &&
      if f.call(t + 4) then Stalls(s1, p, f, t + 5) else !HasChildren(s1, p)
    else
      Marked(s[id]) && !HasChildren(s, id)
  }

  ghost predicate OthersWait(s: Store, id: int) {
    forall v :: v in s && v != id && Marked(s[v]) ==> HasChildren(s, v)
  }

  lemma OthersStillWait(s: Store, id: int)
    requires id in s && OthersWait(s, id)
    ensures OthersWait(s - {id}, s[id].parent)
  {
    var s1, p := s - {id}, s[id].parent;
    forall v | v in s1 && v != p && Marked(s1[v]) ensures HasChildren(s1, v) {
      var c :| c in s && s[c].parent == v;
      assert c in s1 && s1[c].parent == v;
    }
  }

  /** Retagging `id` does not change who has children. */
  lemma RetagKeepsChildren(s: Store, id: int, tags: seq<string>)
    requires id in s
    ensures forall v :: HasChildren(s, v) ==> HasChildren(s[id := s[id].(tags := tags)], v)
  {
    var s' := s[id := s[id].(tags := tags)];
    forall v | HasChildren(s, v) ensures HasChildren(s', v) {
      var c :| c in s && s[c].parent == v;
      assert c in s' && s'[c].parent == v;
    }
  }

  /** Whatever is lost, a call leaves a marked volume without a child exactly if it stalls. */
  lemma {:induction false} MarkedLeafIffStalled(s: Store, id: int, f: Script, t: nat)
    requires 0 !in s && OthersWait(s, id)
    ensures NoMarkedLeaf(DeleteOutcome(s, id, f, t).store) <==> !Stalls(s, id, f, t)
    decreases |s|
  {
    if f.call(t) && id in s && !s[id].locked {
      RetagKeepsChildren(s, id, []);
      RetagKeepsChildren(s, id, AddTag(s[id]).tags);
      if !(f.listing(t + 1) && HasChildren(s, id)) && f.call(t + 2) && f.call(t + 3) {
        var s1, p := s - {id}, s[id].parent;
        OthersStillWait(s, id);
        if p in s1 && f.call(t + 4) && Marked(s1[p]) {
          MarkedLeafIffStalled(s1, p, f, t + 5);
        }
      }
    }
  }

  lemma {:induction false} SuccessDoesNotStall(s: Store, id: int, f: Script, t: nat)
    requires 0 !in s && DeleteOutcome(s, id, f, t).ok
    ensures !Stalls(s, id, f, t)
    decreases |s|
  {
    if id in s && !(f.listing(t + 1) && HasChildren(s, id)) && s[id].parent in s - {id} {
      var s1, p := s - {id}, s[id].parent;
      if p != 0 && Marked(s1[p]) { SuccessDoesNotStall(s1, p, f, t + 5); }
    }
  }

  /** A call that reports success leaves every marked volume with a child, whatever was lost. */
  lemma SuccessLeavesNoMarkedLeaf(s: Store, id: int, f: Script, t: nat)
    requires 0 !in s && NoMarkedLeaf(s) && DeleteOutcome(s, id, f, t).ok
    ensures NoMarkedLeaf(DeleteOutcome(s, id, f, t).store)
  {
    SuccessDoesNotStall(s, id, f, t);
    MarkedLeafIffStalled(s, id, f, t);
  }

  lemma StallsOnlyAtLastChild(s: Store, id: int, f: Script, t: nat)
    requires NoMarkedLeaf(s) && Listing(f)
    ensures Stalls(s, id, f, t) ==> LastChildOfMarked(s, id)
  {
    if id in s {
      var s1, p := s - {id}, s[id].parent;
      forall d | d in s && s[d].parent == p && d != id ensures HasChildren(s1, p) {
        assert d in s1 && s1[d].parent == p;
      }
      assert Stalls(s1, p, f, t + 5) ==> !HasChildren(s1, p);
    }
  }

  // ----- what goes wrong -----

  /** The other side: volume 1 was given up first and is marked, volume 2 is its last child. The call for 2
      loses the array just before volume 1 is removed; every later call succeeds and volume 1 stays
      for ever, unmarked, although both deletions were reported as done. */
  lemma LeakAfterRetry()
    ensures exists s: Store, f: Script, t: nat ::
              Inv(s) && NoMarkedLeaf(s) && LastChildOfMarked(s, 2) && Listing(f) && s.Keys == {1, 2} &&
              Marked(s[1]) && s[2].parent == 1 &&
              var o := DeleteOutcome(s, 2, f, t);
              !o.ok && o.store.Keys == {1} && !Marked(o.store[1]) && Request(o.store, 2) == o.store
  {
    var parent := Volume("pvc", 0, 0, 0, false, [TO_BE_DELETED]);
    var child := Volume("snap", 1, 0, 0, false, []);
    var s: Store := map[1 := parent, 2 := child];
    var f := Script(n => n != 8, n => true);
    assert Ranks(s, map[1 := 0, 2 := 1]);
    assert s[2].parent == 1;
    assert HasChildren(s, 1);
    var s1 := s - {2};
    assert s1.Keys == {1};
    assert !HasChildren(s, 2) && !HasChildren(s1, 1);
    assert DeleteOutcome(s1, 1, f, 5) == Outcome(ClearTags(s1, 1), false, 9);
    assert ParentOutcome(s1, 1, f, 4) == DeleteOutcome(s1, 1, f, 5);
    var o := DeleteOutcome(s, 2, f, 0);
    assert o == Outcome(ClearTags(s1, 1), false, 9);
    assert Request(o.store, 2) == o.store;
  }

  /** Why the child listing has to answer: with it lost, a volume with children is removed. */
  lemma LostListingOrphans()
    ensures exists s: Store, f: Script, t: nat ::
              Inv(s) && !Listing(f) && DeleteOutcome(s, 1, f, t).ok && !Closed(DeleteOutcome(s, 1, f, t).store)
  {
    var s: Store := map[1 := Volume("pvc", 0, 0, 0, false, []), 2 := Volume("snap", 1, 0, 0, false, [])];
    var f := Script(n => true, n => false);
    assert Ranks(s, map[1 := 0, 2 := 1]);
    assert !f.listing(0);
    var s1 := s - {1};
    assert s1.Keys == {2} && s1[2].parent == 1;
    assert DeleteOutcome(s, 1, f, 0) == Outcome(s1, true, 4);
  }

  lemma {:induction false} NeverGrows(s: Store, id: int, f: Script, t: nat)
    ensures DeleteOutcome(s, id, f, t).store.Keys <= s.Keys
    decreases |s|
  {
    if id in s { NeverGrows(s - {id}, s[id].parent, f, t + 5); }
  }

  /** Volumes that rank below `id`, so are not above it, are not touched, whatever fails. */
  lemma {:induction false} TouchesOnlyAncestors(s: Store, id: int, f: Script, t: nat, rank: map<int, nat>, v: int)
    requires Ranks(s, rank) && id in s && v in s && rank[v] > rank[id]
    ensures var s' := DeleteOutcome(s, id, f, t).store; v in s' && s'[v] == s[v]
    decreases |s|
  {
    var s1, p := s - {id}, s[id].parent;
    assert v in s1 && s1[v] == s[v];
    if p in s1 { TouchesOnlyAncestors(s1, p, f, t + 5, rank, v); }
  }

  lemma RemovalOfAParentOrphans(s: Store, id: int, f: Script, t: nat)
    requires Inv(s) && id in s && !s[id].locked && HasChildren(s, id)
    requires f.call(t) && !f.listing(t + 1) && f.call(t + 2) && f.call(t + 3)
    ensures !Closed(DeleteOutcome(s, id, f, t).store)
  {
    var s1, p := s - {id}, s[id].parent;
    var rank :| Ranks(s, rank);
    var c :| c in s && s[c].parent == id;
    assert c in s1 && s1[c] == s[c];
    assert Ranks(s1, rank);
    assert rank[c] > rank[id] && (p in s1 ==> rank[id] > rank[p]);
    if p in s1 { TouchesOnlyAncestors(s1, p, f, t + 5, rank, c); }
    NeverGrows(s1, p, f, t + 5);
    var s' := DeleteOutcome(s, id, f, t).store;
    assert s' == if p == 0 then s1 else ParentOutcome(s1, p, f, t + 4).store;
    assert c in s' && s'[c].parent == id;
    assert id != 0 && s'.Keys <= s1.Keys;
  }

  /** A call leaves an orphan behind exactly if the lost child listing let it remove a volume with children. */
  lemma {:induction false} OrphansIffListingLost(s: Store, id: int, f: Script, t: nat)
    requires Inv(s)
    ensures Closed(DeleteOutcome(s, id, f, t).store) <==> !RemovesAParent(s, id, f, t)
    decreases |s|
  {
    if f.call(t) && id in s && !s[id].locked {
      if HasChildren(s, id) {
        if !f.listing(t + 1) && f.call(t + 2) && f.call(t + 3) {
          RemovalOfAParentOrphans(s, id, f, t);
        } else {
          MarkKeepsInv(s, id);
          ClearTagsKeepsInv(s, id);
        }
      } else {
        ClearTagsKeepsInv(s, id);
        RemovalKeepsInv(s, id);
        if s[id].parent != 0 { OrphansIffListingLost(s - {id}, s[id].parent, f, t + 5); }
      }
    }
  }

  lemma ChildrenListed(s: Store, id: int)
    ensures var children := set c | c in s && s[c].parent == id; |children| > 0 <==> HasChildren(s, id)
  {
    var children := set c | c in s && s[c].parent == id;
    if HasChildren(s, id) {
      var c :| c in s && s[c].parent == id;
      assert c in children;
    } else {
      assert forall c :: c !in children;
      assert children == {};
    }
  }
}
