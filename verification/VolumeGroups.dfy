/** Reconciling the members of a volume group with a requested list of volume ids. */
module VolumeGroups {
  import opened Basics
  import opened Faults
  import opened Handles

  /** The array: its volumes and, for each group, the list of its members. */
  datatype Groups = Groups(volumes: set<int>, members: map<int, seq<int>>)

  predicate Grouped(st: Groups, v: int) {
    exists g :: g in st.members && v in st.members[g]
  }

  /** Members exist, have 64-bit ids, and no volume is in two places. */
  ghost predicate Valid(st: Groups) {
    (forall g :: g in st.members ==> Distinct(st.members[g])) &&
    (forall g, v :: g in st.members && v in st.members[g] ==> v in st.volumes && IsInt(v)) &&
    (forall g, h, v :: g in st.members && h in st.members && v in st.members[g] && v in st.members[h] ==> g == h)
  }

  // ----- calls of the array -----

  /** Refused for a volume that is missing or already in a group. */
  function AddMember(st: Groups, g: int, v: int): Option<Groups>
    requires g in st.members
  {
    if v !in st.volumes || !IsInt(v) || Grouped(st, v) then None
    else Some(st.(members := st.members[g := st.members[g] + [v]]))
  }

  function Without(s: seq<int>, v: int): (r: seq<int>)
    ensures forall x :: x in r <==> x in s && x != v
  {
    if s == [] then [] else (if s[0] == v then [] else [s[0]]) + Without(s[1..], v)
  }

  /** Refused for a volume that is not a member. */
  function RemoveMember(st: Groups, g: int, v: int): Option<Groups>
    requires g in st.members
  {
    if v !in st.members[g] then None
    else Some(st.(members := st.members[g := Without(st.members[g], v)]))
  }

  // ----- the request -----

  datatype Outcome = Outcome(st: Groups, ok: bool, clock: nat)

  predicate NamesMember(members: seq<int>, id: string) {
    exists k :: 0 <= k < |members| && Itoa(members[k]) == id
  }

  /** The numbers of the requested ids that are not the printed form of a member; None if one is no number. */
  function ToAdd(members: seq<int>, ids: seq<string>): Option<seq<int>>
    decreases |ids|
  {
    if ids == [] then Some([])
    else
      var last, rest := ids[|ids| - 1], ToAdd(members, ids[..|ids| - 1]);
      if rest.None? || NamesMember(members, last) then rest
      else match Atoi(last)
        case None => None
        case Some(v) => Some(rest.value + [v])
  }

  function ToRemove(members: seq<int>, ids: seq<string>): (r: seq<int>)
    ensures forall m :: m in r <==> m in members && Itoa(m) !in ids
    decreases |members|
  {
    if members == [] then []
    else
      var last, rest := members[|members| - 1], ToRemove(members[..|members| - 1], ids);
      assert members == members[..|members| - 1] + [last];
      if Itoa(last) in ids then rest else rest + [last]
  }

  function AddAll(st: Groups, g: int, vs: seq<int>, f: Script, t: nat): (o: Outcome)
    requires g in st.members
    decreases |vs|
  {
    if vs == [] then Outcome(st, true, t)
    else if !f.call(t) || vs[0] !in st.volumes then Outcome(st, false, t + 1)
    else
      var added := AddMember(st, g, vs[0]);
      if !f.call(t + 1) || added.None? then Outcome(st, false, t + 2)
      else AddAll(added.value, g, vs[1..], f, t + 2)
  }

  lemma {:induction false} AddAllKeepsGroup(st: Groups, g: int, vs: seq<int>, f: Script, t: nat)
    requires g in st.members
    ensures g in AddAll(st, g, vs, f, t).st.members
    decreases |vs|
  {
    if vs != [] && AddMember(st, g, vs[0]).Some? {
      AddAllKeepsGroup(AddMember(st, g, vs[0]).value, g, vs[1..], f, t + 2);
    }
  }

  function RemoveAll(st: Groups, g: int, vs: seq<int>, f: Script, t: nat): Outcome
    requires g in st.members
    decreases |vs|
  {
    if vs == [] then Outcome(st, true, t)
    else if !f.call(t) || vs[0] !in st.volumes then Outcome(st, false, t + 1)
    else
      var removed := RemoveMember(st, g, vs[0]);
      if !f.call(t + 1) || removed.None? then Outcome(st, false, t + 2)
      else RemoveAll(removed.value, g, vs[1..], f, t + 2)
  }

  /** The branch for an empty request, which does not look the volumes up first. */
  function Clear(st: Groups, g: int, vs: seq<int>, f: Script, t: nat): Outcome
    requires g in st.members
    decreases |vs|
  {
    if vs == [] then Outcome(st, true, t)
    else
      var removed := RemoveMember(st, g, vs[0]);
      if !f.call(t) || removed.None? then Outcome(st, false, t + 1)
      else Clear(removed.value, g, vs[1..], f, t + 1)
  }

  /** ModifyVolumeGroupMembership. */
  function Modify(st: Groups, g: int, ids: seq<string>, f: Script, t: nat): Outcome {
    if !f.call(t) || g !in st.members then Outcome(st, false, t + 1)
    else if !f.call(t + 1) then Outcome(st, false, t + 2)
    else
      var members := st.members[g];
      if ids == [] && members != [] then Clear(st, g, members, f, t + 2)
      else
        var add := ToAdd(members, ids);
        if add.None? then Outcome(st, false, t + 2)
        else
          var o := AddAll(st, g, add.value, f, t + 2);
          if !o.ok then o
          else
            AddAllKeepsGroup(st, g, add.value, f, t + 2);
            var o' := RemoveAll(o.st, g, ToRemove(members, ids), f, o.clock);
            if !o'.ok then o' else Outcome(o'.st, f.call(o'.clock), o'.clock + 1)
  }

  // ----- what the two loops do -----

  /** Only group `g` differs. */
  ghost predicate OnlyGroup(st: Groups, st': Groups, g: int) {
    st'.volumes == st.volumes && st'.members.Keys == st.members.Keys &&
    forall h :: h in st.members && h != g ==> st'.members[h] == st.members[h]
  }

  lemma AddMemberKeepsValid(st: Groups, g: int, v: int)
    requires Valid(st) && g in st.members && AddMember(st, g, v).Some?
    ensures Valid(AddMember(st, g, v).value)
  {
    var st' := AddMember(st, g, v).value;
    assert v !in st.members[g];
  }

  lemma {:induction false} WithoutDistinct(s: seq<int>, v: int)
    requires Distinct(s)
    ensures Distinct(Without(s, v))
    decreases |s|
  {
    if s != [] {
      assert forall k :: 0 <= k < |s[1..]| ==> s[1..][k] == s[k + 1];
      WithoutDistinct(s[1..], v);
      assert s[0] !in s[1..];
    }
  }

  /** Additions: the members stay and some of the new ones join; on success all of them were new, and joined. */
  lemma {:induction false} AddAllAdds(st: Groups, g: int, vs: seq<int>, f: Script, t: nat)
    requires Valid(st) && g in st.members
    ensures var o := AddAll(st, g, vs, f, t);
            Valid(o.st) && OnlyGroup(st, o.st, g) &&
            (forall v :: v in st.members[g] ==> v in o.st.members[g]) &&
            (forall v :: v in o.st.members[g] ==> v in st.members[g] || v in vs) &&
            (o.ok ==> forall v :: v in vs ==> v in o.st.members[g] && v !in st.members[g]) &&
            (Reliable(f) ==> (o.ok <==> Addable(st, vs)))
    decreases |vs|
  {
    if vs != [] {
      var added := AddMember(st, g, vs[0]);
      assert vs == [vs[0]] + vs[1..];
      if added.Some? {
        AddMemberKeepsValid(st, g, vs[0]);
        AddAllAdds(added.value, g, vs[1..], f, t + 2);
        AddableStep(st, g, vs);
        hide Addable, Valid;
      } else {
        assert !Addable(st, vs);
      }
    }
  }

  /** Volumes that exist, are in no group yet, and are named once. */
  ghost predicate Addable(st: Groups, vs: seq<int>) {
    Distinct(vs) && forall k :: 0 <= k < |vs| ==> vs[k] in st.volumes && IsInt(vs[k]) && !Grouped(st, vs[k])
  }

  lemma AddableStep(st: Groups, g: int, vs: seq<int>)
    requires g in st.members && vs != [] && AddMember(st, g, vs[0]).Some?
    ensures Addable(st, vs) <==> Addable(AddMember(st, g, vs[0]).value, vs[1..])
  {
    var st' := AddMember(st, g, vs[0]).value;
    forall v ensures Grouped(st', v) <==> Grouped(st, v) || v == vs[0] {
      if Grouped(st, v) {
        var h :| h in st.members && v in st.members[h];
        assert v in st'.members[h];
      }
      assert vs[0] in st'.members[g];
    }
    if Addable(st', vs[1..]) {
      forall k | 0 <= k < |vs| ensures vs[k] in st.volumes && IsInt(vs[k]) && !Grouped(st, vs[k]) {
        if k > 0 { assert vs[k] == vs[1..][k - 1]; }
      }
      forall i, j | 0 <= i < j < |vs| ensures vs[i] != vs[j] {
        assert vs[j] == vs[1..][j - 1];
        if i > 0 { assert vs[i] == vs[1..][i - 1]; }
      }
    }
    if Addable(st, vs) {
      forall k | 0 <= k < |vs[1..]| ensures !Grouped(st', vs[1..][k]) {
        assert vs[1..][k] == vs[k + 1];
      }
    }
  }

  /** Nothing joined and only listed ones left; on success all of them left. */
  ghost predicate Removed(st: Groups, g: int, vs: seq<int>, o: Outcome)
    requires g in st.members
  {
    Valid(o.st) && OnlyGroup(st, o.st, g) &&
    (forall v :: v in o.st.members[g] ==> v in st.members[g]) &&
    (forall v :: v in st.members[g] && v !in vs ==> v in o.st.members[g]) &&
    (o.ok ==> forall v :: v in vs ==> v !in o.st.members[g])
  }

  ghost predicate Removable(st: Groups, g: int, vs: seq<int>)
    requires g in st.members
  {
    Distinct(vs) && forall k :: 0 <= k < |vs| ==> vs[k] in st.members[g]
  }

  lemma RemovableStep(st: Groups, g: int, vs: seq<int>)
    requires Valid(st) && g in st.members && vs != [] && RemoveMember(st, g, vs[0]).Some?
    ensures Valid(RemoveMember(st, g, vs[0]).value)
    ensures Removable(st, g, vs) ==> Removable(RemoveMember(st, g, vs[0]).value, g, vs[1..])
    ensures forall v :: v in vs <==> v == vs[0] || v in vs[1..]
  {
    WithoutDistinct(st.members[g], vs[0]);
    assert vs == [vs[0]] + vs[1..];
    assert forall k :: 0 <= k < |vs[1..]| ==> vs[1..][k] == vs[k + 1];
  }

  lemma RemovedStep(st: Groups, g: int, vs: seq<int>, o: Outcome)
    requires Valid(st) && g in st.members && vs != [] && RemoveMember(st, g, vs[0]).Some?
    requires Removed(RemoveMember(st, g, vs[0]).value, g, vs[1..], o)
    ensures Removed(st, g, vs, o)
  {
    RemovableStep(st, g, vs);
  }

  lemma NothingRemoved(st: Groups, g: int, vs: seq<int>, o: Outcome)
    requires Valid(st) && g in st.members && o.st == st && (o.ok ==> vs == [])
    ensures Removed(st, g, vs, o)
  {
  }

  lemma {:induction false} RemoveAllRemoves(st: Groups, g: int, vs: seq<int>, f: Script, t: nat)
    requires Valid(st) && g in st.members
    ensures Removed(st, g, vs, RemoveAll(st, g, vs, f, t))
    ensures Reliable(f) && Removable(st, g, vs) ==> RemoveAll(st, g, vs, f, t).ok
    decreases |vs|
  {
    var o := RemoveAll(st, g, vs, f, t);
    if vs != [] && f.call(t) && f.call(t + 1) && vs[0] in st.members[g] {
      var st1 := RemoveMember(st, g, vs[0]).value;
      assert vs[0] in st.volumes;
      RemovableStep(st, g, vs);
      RemoveAllRemoves(st1, g, vs[1..], f, t + 2);
      RemovedStep(st, g, vs, RemoveAll(st1, g, vs[1..], f, t + 2));
      hide Removable, Distinct, Without, Valid, Removed;
      assert o == RemoveAll(st1, g, vs[1..], f, t + 2);
    } else {
      assert Reliable(f) && Removable(st, g, vs) ==> vs == [];
      hide Removable, Distinct, Without, Removed, Valid;
      NothingRemoved(st, g, vs, o);
    }
  }

  lemma {:induction false} ClearRemoves(st: Groups, g: int, vs: seq<int>, f: Script, t: nat)
    requires Valid(st) && g in st.members
    ensures var o := Clear(st, g, vs, f, t);
            Removed(st, g, vs, o) && (Reliable(f) && Removable(st, g, vs) ==> o.ok)
    decreases |vs|
  {
    assert vs != [] && RemoveMember(st, g, vs[0]).None? ==> !Removable(st, g, vs);
    if vs != [] && RemoveMember(st, g, vs[0]).Some? {
      var st1 := RemoveMember(st, g, vs[0]).value;
      RemovableStep(st, g, vs);
      ClearRemoves(st1, g, vs[1..], f, t + 1);
      RemovedStep(st, g, vs, Clear(st1, g, vs[1..], f, t + 1));
      hide Removable, RemoveMember, Distinct, Without;
    }
  }

  // ----- the requested set -----

  /** The request means volume `v`. */
  ghost predicate Asks(ids: seq<string>, v: int) {
    exists k :: 0 <= k < |ids| && Atoi(ids[k]) == Some(v)
  }

  /** The request names volume `v` by an id that prints no member. */
  ghost predicate AsksNew(members: seq<int>, ids: seq<string>, v: int) {
    exists k :: 0 <= k < |ids| && !NamesMember(members, ids[k]) && Atoi(ids[k]) == Some(v)
  }

  ghost predicate Readable(members: seq<int>, id: string) {
    NamesMember(members, id) || Atoi(id).Some?
  }

  lemma AsksNewStep(members: seq<int>, ids: seq<string>, id: string, v: int)
    ensures AsksNew(members, ids + [id], v) <==> AsksNew(members, ids, v) || (!NamesMember(members, id) && Atoi(id) == Some(v))
  {
    var more := ids + [id];
    assert more[|ids|] == id && forall k :: 0 <= k < |ids| ==> more[k] == ids[k];
  }

  lemma {:induction false} ToAddReadable(members: seq<int>, ids: seq<string>)
    ensures ToAdd(members, ids).Some? <==> forall k :: 0 <= k < |ids| ==> Readable(members, ids[k])
    decreases |ids|
  {
    hide NamesMember, Atoi;
    if ids != [] {
      var n := |ids| - 1;
      ToAddReadable(members, ids[..n]);
      assert forall k :: 0 <= k < n ==> ids[..n][k] == ids[k];
    }
  }

  lemma {:induction false} ToAddMembers(members: seq<int>, ids: seq<string>, v: int)
    requires ToAdd(members, ids).Some?
    ensures v in ToAdd(members, ids).value <==> AsksNew(members, ids, v)
    decreases |ids|
  {
    if ids != [] {
      hide NamesMember, Atoi, AsksNew;
      var n := |ids| - 1;
      assert ids == ids[..n] + [ids[n]];
      ToAddMembers(members, ids[..n], v);
      AsksNewStep(members, ids[..n], ids[n], v);
    }
  }

  lemma ToAddMeaning(members: seq<int>, ids: seq<string>)
    ensures var add := ToAdd(members, ids);
            (add.Some? <==> forall k :: 0 <= k < |ids| ==> Readable(members, ids[k])) &&
            (add.Some? ==> forall v :: v in add.value <==> AsksNew(members, ids, v))
  {
    hide ToAdd, AsksNew, Readable;
    ToAddReadable(members, ids);
    forall v | ToAdd(members, ids).Some? ensures v in ToAdd(members, ids).value <==> AsksNew(members, ids, v) {
      ToAddMembers(members, ids, v);
    }
  }

  /** An id that prints a member means that member. */
  lemma NamedMeans(members: seq<int>, id: string)
    requires NamesMember(members, id) && forall m :: m in members ==> IsInt(m)
    ensures Atoi(id).Some? && Atoi(id).value in members && Itoa(Atoi(id).value) == id
  {
    var j :| 0 <= j < |members| && Itoa(members[j]) == id;
    assert members[j] in members;
    AtoiOfItoa(members[j]);
  }

  /** What a request names: a requested volume that is no member yet is to be added, and a member stays
      exactly if its printed form was requested. */
  lemma RequestedSplit(members: seq<int>, ids: seq<string>, v: int)
    requires ToAdd(members, ids).Some? && forall m :: m in members ==> IsInt(m)
    ensures Asks(ids, v) <==> v in ToAdd(members, ids).value || (v in members && v !in ToRemove(members, ids))
  {
    ToAddMeaning(members, ids);
    if Asks(ids, v) {
      var k :| 0 <= k < |ids| && Atoi(ids[k]) == Some(v);
      if NamesMember(members, ids[k]) { NamedMeans(members, ids[k]); }
    }
    if v in members && v !in ToRemove(members, ids) {
      AtoiOfItoa(v);
      var k :| 0 <= k < |ids| && ids[k] == Itoa(v);
      assert Atoi(ids[k]) == Some(v);
    }
  }

  ghost predicate Between(before: seq<int>, now: seq<int>, ids: seq<string>) {
    (forall v :: v in before && Asks(ids, v) ==> v in now) &&
    forall v :: v in now ==> v in before || Asks(ids, v)
  }

  /** Nobody left, or everybody requested is in: additions come before removals. */
  ghost predicate AddsFirst(before: seq<int>, now: seq<int>, ids: seq<string>) {
    (forall v :: v in before ==> v in now) || forall v :: Asks(ids, v) ==> v in now
  }

  /** Wherever the call stops, only this group changed, nobody requested was thrown out, nobody else came in, and nobody left before
      everybody requested was in;
      a reported success leaves exactly the requested volumes. */
  lemma ModifyConverges(st: Groups, g: int, ids: seq<string>, f: Script, t: nat)
    requires Valid(st) && g in st.members
    ensures var o := Modify(st, g, ids, f, t);
            Valid(o.st) && OnlyGroup(st, o.st, g) && Between(st.members[g], o.st.members[g], ids) &&
            AddsFirst(st.members[g], o.st.members[g], ids) &&
            (o.ok ==> forall v :: v in o.st.members[g] <==> Asks(ids, v))
  {
    var members := st.members[g];
    assert forall m :: m in members ==> IsInt(m);
    hide AddAll, RemoveAll, Clear, ToAdd, ToRemove, Valid;
    if ids == [] && members != [] {
      ClearRemoves(st, g, members, f, t + 2);
    } else if ToAdd(members, ids).Some? {
      forall v ensures Asks(ids, v) <==> v in ToAdd(members, ids).value || (v in members && v !in ToRemove(members, ids)) {
        RequestedSplit(members, ids, v);
      }
      AddThenRemove(st, g, ids, ToAdd(members, ids).value, ToRemove(members, ids), f, t + 2);
    }
  }

  /** The two loops, given what the request asks for. */
  lemma AddThenRemove(st: Groups, g: int, ids: seq<string>, add: seq<int>, remove: seq<int>, f: Script, t: nat)
    requires Valid(st) && g in st.members
    requires forall v :: Asks(ids, v) <==> v in add || (v in st.members[g] && v !in remove)
    requires forall v :: v in remove ==> v in st.members[g]
    ensures var o1 := AddAll(st, g, add, f, t);
            Valid(o1.st) && OnlyGroup(st, o1.st, g) && Between(st.members[g], o1.st.members[g], ids) &&
            AddsFirst(st.members[g], o1.st.members[g], ids) &&
            (o1.ok ==>
              var o2 := RemoveAll(o1.st, g, remove, f, o1.clock);
              Valid(o2.st) && OnlyGroup(st, o2.st, g) && Between(st.members[g], o2.st.members[g], ids) &&
              AddsFirst(st.members[g], o2.st.members[g], ids) &&
              (o2.ok ==> forall v :: v in o2.st.members[g] <==> Asks(ids, v)))
  {
    AddAllAdds(st, g, add, f, t);
    var o1 := AddAll(st, g, add, f, t);
    if o1.ok {
      RemoveAllRemoves(o1.st, g, remove, f, o1.clock);
    }
    hide AddAll, RemoveAll, Asks, Valid;
  }

  /** Ids that the request can act on: each is the printed form of a member, or the number of
      an existing volume in no group, and no two of the latter mean the same volume. */
  ghost predicate Acceptable(st: Groups, g: int, ids: seq<string>)
    requires g in st.members
  {
    var add := ToAdd(st.members[g], ids);
    add.Some? && Addable(st, add.value)
  }

  lemma {:induction false} ToRemoveDistinct(members: seq<int>, ids: seq<string>)
    requires Distinct(members)
    ensures Distinct(ToRemove(members, ids))
    decreases |members|
  {
    if members != [] {
      var n := |members| - 1;
      ToRemoveDistinct(members[..n], ids);
      assert members[n] !in members[..n];
    }
  }

  /** While the array answers, a request succeeds exactly if it is acceptable. */
  lemma ModifySucceedsIff(st: Groups, g: int, ids: seq<string>, f: Script, t: nat)
    requires Valid(st) && g in st.members && Reliable(f)
    ensures Modify(st, g, ids, f, t).ok <==> Acceptable(st, g, ids)
  {
    var members := st.members[g];
    if ids == [] && members != [] {
      ClearRemoves(st, g, members, f, t + 2);
    } else {
      var add := ToAdd(members, ids);
      if add.Some? {
        AddAllAdds(st, g, add.value, f, t + 2);
        var o := AddAll(st, g, add.value, f, t + 2);
        ToRemoveDistinct(members, ids);
        if o.ok { RemoveAllRemoves(o.st, g, ToRemove(members, ids), f, o.clock); }
      }
    }
  }

  lemma {:induction false} AddAllCalls(st: Groups, g: int, vs: seq<int>, f: Script, t: nat)
    requires g in st.members && AddAll(st, g, vs, f, t).ok
    ensures AddAll(st, g, vs, f, t).clock == t + 2 * |vs| && forall n :: t <= n < t + 2 * |vs| ==> f.call(n)
    decreases |vs|
  {
    if vs != [] { AddAllCalls(AddMember(st, g, vs[0]).value, g, vs[1..], f, t + 2); }
  }

  lemma {:induction false} RemoveAllCalls(st: Groups, g: int, vs: seq<int>, f: Script, t: nat)
    requires g in st.members && RemoveAll(st, g, vs, f, t).ok
    ensures RemoveAll(st, g, vs, f, t).clock == t + 2 * |vs| && forall n :: t <= n < t + 2 * |vs| ==> f.call(n)
    decreases |vs|
  {
    if vs != [] { RemoveAllCalls(RemoveMember(st, g, vs[0]).value, g, vs[1..], f, t + 2); }
  }

  /** A request for some volumes that reports success made two calls for every volume that it adds or removes and three
      others, the last of them the listing it answers with, and lost none of them. */
  lemma ModifyCalls(st: Groups, g: int, ids: seq<string>, f: Script, t: nat)
    requires ids != [] && Modify(st, g, ids, f, t).ok
    ensures g in st.members && ToAdd(st.members[g], ids).Some? &&
            var n := |ToAdd(st.members[g], ids).value| + |ToRemove(st.members[g], ids)|;
            Modify(st, g, ids, f, t).clock == t + 3 + 2 * n && forall k :: t <= k < t + 3 + 2 * n ==> f.call(k)
  {
    hide AddAll, RemoveAll, ToAdd, ToRemove;
    var add, remove := ToAdd(st.members[g], ids).value, ToRemove(st.members[g], ids);
    AddAllKeepsGroup(st, g, add, f, t + 2);
    AddAllCalls(st, g, add, f, t + 2);
    var o := AddAll(st, g, add, f, t + 2);
    RemoveAllCalls(o.st, g, remove, f, o.clock);
  }

  predicate Canonical(id: string) {
    Atoi(id).Some? && Itoa(Atoi(id).value) == id
  }

  /** Repeating a request that succeeded: it changes nothing, whether or not it is answered, and, answered, it succeeds again
      exactly if every id was written canonically. */
  lemma RepeatedModify(st: Groups, g: int, ids: seq<string>, f: Script, t: nat, h: Script, t': nat)
    requires Valid(st) && g in st.members && Modify(st, g, ids, f, t).ok
    ensures var st1 := Modify(st, g, ids, f, t).st;
            var again := Modify(st1, g, ids, h, t');
            again.st == st1 && (Reliable(h) ==> (again.ok <==> forall k :: 0 <= k < |ids| ==> Canonical(ids[k])))
  {
    var st1 := Modify(st, g, ids, f, t).st;
    ModifyConverges(st, g, ids, f, t);
    ParsedOnSuccess(st, g, ids, f, t);
    hide Canonical;
    RequestMet(st1, g, ids);
    RepeatOfMetRequest(st1, g, ids, h, t');
  }

  /** The group has exactly the requested members. */
  ghost predicate Met(st: Groups, g: int, ids: seq<string>)
    requires g in st.members
  {
    (forall k :: 0 <= k < |ids| ==> Atoi(ids[k]).Some?) && forall v :: v in st.members[g] <==> Asks(ids, v)
  }

  ghost predicate AllCanonical(ids: seq<string>) {
    forall k :: 0 <= k < |ids| ==> Canonical(ids[k])
  }

  /** What is left to do then: nothing, or only to add members, which is refused. */
  lemma RequestMet(st: Groups, g: int, ids: seq<string>)
    requires Valid(st) && g in st.members && Met(st, g, ids)
    ensures var members := st.members[g];
            ToAdd(members, ids).Some? &&
            var add := ToAdd(members, ids).value;
            (forall v :: v in add ==> v in members) &&
            (AllCanonical(ids) ==> add == [] && ToRemove(members, ids) == [] && (ids == [] ==> members == [])) &&
            (!AllCanonical(ids) ==> add != [])
  {
    var members := st.members[g];
    ToAddMeaning(members, ids);
    var add := ToAdd(members, ids).value;
    forall v | v in add ensures v in members && !AllCanonical(ids) {
      var k :| 0 <= k < |ids| && !NamesMember(members, ids[k]) && Atoi(ids[k]) == Some(v);
      assert Asks(ids, v);
      NamedIffCanonical(members, ids[k]);
    }
    if AllCanonical(ids) {
      NothingIn(add);
      CanonicalMembersStay(members, ids);
    } else {
      var k :| 0 <= k < |ids| && !Canonical(ids[k]);
      assert Asks(ids, Atoi(ids[k]).value);
      NamedIffCanonical(members, ids[k]);
      assert AsksNew(members, ids, Atoi(ids[k]).value);
    }
  }

  lemma CanonicalMembersStay(members: seq<int>, ids: seq<string>)
    requires AllCanonical(ids) && forall v :: v in members ==> Asks(ids, v)
    ensures ToRemove(members, ids) == [] && (ids == [] ==> members == [])
  {
    forall m | m in members ensures Itoa(m) in ids {
      var k :| 0 <= k < |ids| && Atoi(ids[k]) == Some(m);
      assert Canonical(ids[k]);
    }
    NothingIn(ToRemove(members, ids));
    if ids == [] { NothingIn(members); }
  }

  lemma RefusedAtOnce(st: Groups, g: int, vs: seq<int>, f: Script, t: nat)
    requires g in st.members && vs != [] && vs[0] in st.members[g]
    ensures var o := AddAll(st, g, vs, f, t); o.st == st && !o.ok
  {
    assert Grouped(st, vs[0]);
  }

  lemma RepeatOfMetRequest(st: Groups, g: int, ids: seq<string>, f: Script, t: nat)
    requires Valid(st) && g in st.members && Met(st, g, ids)
    ensures var again := Modify(st, g, ids, f, t);
            again.st == st && (Reliable(f) ==> (again.ok <==> AllCanonical(ids)))
  {
    var members := st.members[g];
    RequestMet(st, g, ids);
    hide AllCanonical, Valid, ToAdd, ToRemove, Met;
    var add := ToAdd(members, ids).value;
    if add != [] {
      var v := add[0];
      assert v in add;
      RefusedAtOnce(st, g, add, f, t + 2);
    }
  }

  lemma NothingIn(s: seq<int>)
    ensures |s| > 0 ==> exists v :: v in s
  {
    if |s| > 0 {
      var v := s[0];
      assert v in s;
    }
  }

  lemma ParsedOnSuccess(st: Groups, g: int, ids: seq<string>, f: Script, t: nat)
    requires Valid(st) && g in st.members && Modify(st, g, ids, f, t).ok
    ensures forall k :: 0 <= k < |ids| ==> Atoi(ids[k]).Some?
  {
    var members := st.members[g];
    assert ids == [] || ToAdd(members, ids).Some?;
    ToAddMeaning(members, ids);
    forall k | 0 <= k < |ids| ensures Atoi(ids[k]).Some? {
      if NamesMember(members, ids[k]) { NamedMeans(members, ids[k]); }
    }
  }

  lemma NamedIffCanonical(members: seq<int>, id: string)
    requires Atoi(id).Some? && Atoi(id).value in members
    requires forall m :: m in members ==> IsInt(m)
    ensures NamesMember(members, id) <==> Canonical(id)
  {
    if NamesMember(members, id) {
      NamedMeans(members, id);
    } else {
      var j :| 0 <= j < |members| && members[j] == Atoi(id).value;
      assert Itoa(members[j]) != id;
    }
  }

  /** A concrete id that is accepted once and refused when repeated. */
  lemma LeadingZeroIsNotRepeatable(st: Groups, g: int, f: Script, t: nat)
    requires Valid(st) && g in st.members && st.members[g] == [] && Reliable(f)
    requires 7 in st.volumes && !Grouped(st, 7)
    ensures var o := Modify(st, g, ["007"], f, t);
            o.ok && g in o.st.members && (forall v :: v in o.st.members[g] <==> v == 7) && !Modify(o.st, g, ["007"], f, o.clock).ok
  {
    SevenTimes();
    var none: seq<int>, ids := [], ["007"];
    assert ids[..0] == [] && ToAdd(none, []) == Some(none) && none + [7] == [7];
    assert ToAdd(none, ids[..0]) == Some(none);
    assert ToAdd(none, ids) == Some([7]);
    ModifySucceedsIff(st, g, ["007"], f, t);
    ModifyConverges(st, g, ["007"], f, t);
    RepeatedModify(st, g, ["007"], f, t, f, Modify(st, g, ["007"], f, t).clock);
    assert !Canonical(["007"][0]);
    assert forall v :: Asks(["007"], v) <==> v == 7 by {
      assert ["007"][0] == "007";
    }
  }

  lemma SevenTimes()
    ensures Atoi("007") == Some(7) && !Canonical("007")
  {
    assert "007"[..2] == "00" && "00"[..1] == "0" && "0"[..0] == "";
    assert Number("0") == 0 && Number("00") == 0;
    assert Number("007") == 7;
    assert Itoa(7) == "7";
  }

  // ----- the driver -----

  class VolumeGroupServer {
    var groups: Groups
    var clock: nat
    const script: Script

    constructor (groups: Groups, script: Script)
      ensures this.groups == groups && this.script == script && clock == 0
    {
      this.groups, this.script, clock := groups, script, 0;
    }

    method Call() returns (ok: bool)
      modifies this`clock
      ensures clock == old(clock) + 1 && ok == script.call(old(clock))
    {
      ok := script.call(clock);
      clock := clock + 1;
    }

    method RemoveEveryMember(g: int, members: seq<int>) returns (ok: bool)
      requires g in groups.members
      modifies this
      ensures Outcome(groups, ok, clock) == Clear(old(groups), g, members, script, old(clock))
    {
      var i := 0;
      while i < |members|
        invariant 0 <= i <= |members| && g in groups.members
        invariant Clear(old(groups), g, members, script, old(clock)) == Clear(groups, g, members[i..], script, clock)
      {
        assert members[i..][1..] == members[i + 1..];
        ok := Call();
        var removed := RemoveMember(groups, g, members[i]);
        if !ok || removed.None? { return false; }
        groups := removed.value;
        i := i + 1;
      }
      ok := true;
    }

    /** The inner loop: whether the id is the printed form of a member. */
    method IsMember(members: seq<int>, id: string) returns (found: bool)
      ensures found == NamesMember(members, id)
    {
      hide Itoa;
      found := false;
      var k := 0;
      while k < |members|
        invariant 0 <= k <= |members|
        invariant found <==> exists j :: 0 <= j < k && Itoa(members[j]) == id
      {
        if Itoa(members[k]) == id { found := true; }
        k := k + 1;
      }
    }

    /** The ids that print no member, as numbers; None if one of them is no number. */
    method FindVolumesToAdd(members: seq<int>, ids: seq<string>) returns (add: Option<seq<int>>)
      ensures add == ToAdd(members, ids)
    {
      hide Atoi, NamesMember;
      var volumesToAdd: seq<int> := [];
      var i := 0;
      while i < |ids|
        invariant 0 <= i <= |ids|
        invariant ToAdd(members, ids[..i]) == Some(volumesToAdd)
      {
        assert ids[..i + 1][..i] == ids[..i];
        var found := IsMember(members, ids[i]);
        if !found {
          var v := Atoi(ids[i]);
          if v.None? {
            ToAddFails(members, ids, i + 1);
            return None;
          }
          volumesToAdd := volumesToAdd + [v.value];
        }
        i := i + 1;
      }
      assert ids[..i] == ids;
      add := Some(volumesToAdd);
    }

    method FindVolumesToRemove(members: seq<int>, ids: seq<string>) returns (remove: seq<int>)
      ensures remove == ToRemove(members, ids)
    {
      remove := [];
      var i := 0;
      while i < |members|
        invariant 0 <= i <= |members|
        invariant remove == ToRemove(members[..i], ids)
      {
        assert members[..i + 1][..i] == members[..i];
        var current := Itoa(members[i]);
        var found := false;
        var k := 0;
        while k < |ids|
          invariant 0 <= k <= |ids|
          invariant found <==> current in ids[..k]
        {
          if current == ids[k] { found := true; }
          k := k + 1;
        }
        assert ids[..k] == ids;
        if !found { remove := remove + [members[i]]; }
        i := i + 1;
      }
      assert members[..i] == members;
    }

    method AddEach(g: int, vs: seq<int>) returns (ok: bool)
      requires g in groups.members
      modifies this
      ensures g in groups.members
      ensures Outcome(groups, ok, clock) == AddAll(old(groups), g, vs, script, old(clock))
    {
      var i := 0;
      while i < |vs|
        invariant 0 <= i <= |vs| && g in groups.members
        invariant AddAll(old(groups), g, vs, script, old(clock)) == AddAll(groups, g, vs[i..], script, clock)
      {
        assert vs[i..][1..] == vs[i + 1..];
        ok := Call();
        if !ok || vs[i] !in groups.volumes { return false; }
        ok := Call();
        var added := AddMember(groups, g, vs[i]);
        if !ok || added.None? { return false; }
        groups := added.value;
        i := i + 1;
      }
      ok := true;
    }

    method RemoveEach(g: int, vs: seq<int>) returns (ok: bool)
      requires g in groups.members
      modifies this
      ensures g in groups.members
      ensures Outcome(groups, ok, clock) == RemoveAll(old(groups), g, vs, script, old(clock))
    {
      var i := 0;
      while i < |vs|
        invariant 0 <= i <= |vs| && g in groups.members
        invariant RemoveAll(old(groups), g, vs, script, old(clock)) == RemoveAll(groups, g, vs[i..], script, clock)
      {
        assert vs[i..][1..] == vs[i + 1..];
        ok := Call();
        if !ok || vs[i] !in groups.volumes { return false; }
        ok := Call();
        var removed := RemoveMember(groups, g, vs[i]);
        if !ok || removed.None? { return false; }
        groups := removed.value;
        i := i + 1;
      }
      ok := true;
    }

    /** Also returns the members it reports: those of the group, none for an empty request or a failed one. */
    method ModifyVolumeGroupMembership(g: int, ids: seq<string>) returns (ok: bool, reported: seq<int>)
      modifies this
      ensures Outcome(groups, ok, clock) == Modify(old(groups), g, ids, script, old(clock))
      ensures ok && ids != [] ==> g in groups.members && reported == groups.members[g]
      ensures !ok || ids == [] ==> reported == []
    {
      reported := [];
      ok := Call();
      if !ok || g !in groups.members { return false, []; }
      ok := Call();
      if !ok { return; }
      var members := groups.members[g];
      if |ids| == 0 && |members| > 0 {
        ok := RemoveEveryMember(g, members);
        return;
      }
      var add := FindVolumesToAdd(members, ids);
      if add.None? { return false, []; }
      var remove := FindVolumesToRemove(members, ids);
      ok := AddEach(g, add.value);
      if !ok { return; }
      ok := RemoveEach(g, remove);
      if !ok { return; }
      ok := Call();
      if ok { reported := groups.members[g]; }
    }
  }

  lemma {:induction false} ToAddFails(members: seq<int>, ids: seq<string>, n: nat)
    requires n <= |ids| && ToAdd(members, ids[..n]).None?
    ensures ToAdd(members, ids).None?
    decreases |ids|
  {
    if n < |ids| {
      assert ids[..|ids| - 1][..n] == ids[..n];
      ToAddFails(members, ids[..|ids| - 1], n);
    } else {
      assert ids[..n] == ids;
    }
  }
}
