/** Hosts and LUNs: publishing creates a host on demand and maps a LUN, unpublishing unmaps it and
    reclaims a host that the driver created once it is empty. */
module Hosts {
  import opened Basics
  import opened Faults

  /** `tagged` stands for the metadata key csi-created-host; `luns` maps volumes to LUN numbers. */
  datatype Host = Host(name: string, tagged: bool, luns: map<int, int>, nextLun: int)

  datatype Array = Array(hosts: map<int, Host>, next: int, volumes: set<int>)

  ghost predicate Named(st: Array, h: int, name: string) {
    h in st.hosts && st.hosts[h].name == name
  }

  /** GetHostByName. */
  ghost function HostNamed(st: Array, name: string): (h: Option<int>)
    ensures h.Some? ==> Named(st, h.value, name)
    ensures h.None? ==> forall k :: !Named(st, k, name)
  {
    if k :| Named(st, k, name) then Some(k) else None
  }

  function Put(st: Array, h: int, host: Host): Array {
    st.(hosts := st.hosts[h := host])
  }

  function CreateHost(st: Array, name: string): Array {
    Put(st, st.next, Host(name, false, map[], 1)).(next := st.next + 1)
  }

  function MapLun(host: Host, v: int): Host {
    host.(luns := host.luns[v := host.nextLun], nextLun := host.nextLun + 1)
  }

  /** `lun` is the LUN number a successful publish returns. */
  datatype Outcome = Outcome(st: Array, ok: bool, lun: Option<int>, clock: nat)

  function Failed(st: Array, clock: nat): Outcome {
    Outcome(st, false, None, clock)
  }

  /** ValidateHost: find the host or create and tag it. The result is the host's id. */
  ghost function ValidateHost(st: Array, name: string, f: Script, t: nat): (Array, Option<int>, nat) {
    if !f.call(t) then (st, None, t + 1)
    else if HostNamed(st, name).Some? then (st, HostNamed(st, name), t + 1)
    else if !f.call(t + 1) then (st, None, t + 2)
    else
      var created := CreateHost(st, name);
      if !f.call(t + 2) then (created, None, t + 3)
      else (Put(created, st.next, created.hosts[st.next].(tagged := true)), Some(st.next), t + 3)
  }

  /** ControllerPublishVolume for block volumes; `limit` is the optional max_vols_per_host. */
  ghost function Publish(st: Array, name: string, v: int, limit: Option<int>, f: Script, t: nat): Outcome {
    var (st1, h, t1) := ValidateHost(st, name, f, t);
    if h.None? || h.value !in st1.hosts then Failed(st1, t1)
    else PublishOn(st1, h.value, v, limit, f, t1)
  }

  function PublishOn(st: Array, h: int, v: int, limit: Option<int>, f: Script, t: nat): Outcome
    requires h in st.hosts
  {
    var host := st.hosts[h];
    if !f.call(t) || v !in st.volumes then Failed(st, t + 1)
    else if !f.call(t + 1) then Failed(st, t + 2)
    else if v in host.luns then Outcome(st, true, Some(host.luns[v]), t + 2)
    else if limit.Some? && (limit.value < 1 || |host.luns| >= limit.value) then Failed(st, t + 2)
    else if !f.call(t + 2) then Failed(st, t + 3)
    else Outcome(Put(st, h, MapLun(host, v)), true, Some(host.nextLun), t + 3)
  }

  /** ControllerUnpublishVolume: unmap, list the LUNs again, clean the host up if there are none. */
  ghost function Unpublish(st: Array, name: string, v: int, f: Script, t: nat): Outcome {
    var h := HostNamed(st, name);
    if !f.call(t) then Failed(st, t + 1)
    else if h.None? then Outcome(st, true, None, t + 1)
    else
      var host := st.hosts[h.value];
      if |host.luns| == 0 then ListAndClean(st, h.value, f, t + 1)
      else if !f.call(t + 1) then Failed(st, t + 2)
      else ListAndClean(Put(st, h.value, host.(luns := host.luns - {v})), h.value, f, t + 2)
  }

  /** A lost listing counts as an empty one. */
  function ListAndClean(st: Array, h: int, f: Script, t: nat): Outcome
    requires h in st.hosts
  {
    if f.listing(t) && |st.hosts[h].luns| > 0 then Outcome(st, true, None, t + 1)
    else if !f.call(t + 1) then Failed(st, t + 2)
    else if !st.hosts[h].tagged then Outcome(st, true, None, t + 2)
    else if !f.call(t + 2) then Failed(st, t + 3)
    else Outcome(st.(hosts := st.hosts - {h}), true, None, t + 3)
  }

  // ----- one step -----

  datatype Op =
    | PublishOp(host: string, volume: int, limit: Option<int>)
    | UnpublishOp(host: string, volume: int)

  ghost function Step(st: Array, op: Op, f: Script, t: nat): Outcome {
    match op
    case PublishOp(name, v, limit) => Publish(st, name, v, limit, f, t)
    case UnpublishOp(name, v) => Unpublish(st, name, v, f, t)
  }

  ghost predicate SameName(st: Array, a: int, b: int) {
    a in st.hosts && b in st.hosts && st.hosts[a].name == st.hosts[b].name
  }

  /** Host names are unique and ids are given out upwards. */
  ghost predicate Valid(st: Array) {
    (forall a, b {:trigger SameName(st, a, b)} :: SameName(st, a, b) ==> a == b) &&
    forall h :: h in st.hosts ==> h < st.next
  }

  lemma PutKeepsValid(st: Array, h: int, host: Host)
    requires Valid(st) && h in st.hosts && host.name == st.hosts[h].name
    ensures Valid(Put(st, h, host))
  {
    forall a, b | SameName(Put(st, h, host), a, b) ensures a == b {
      assert SameName(st, a, b);
    }
  }

  lemma DropKeepsValid(st: Array, h: int)
    requires Valid(st)
    ensures Valid(st.(hosts := st.hosts - {h}))
  {
    forall a, b | SameName(st.(hosts := st.hosts - {h}), a, b) ensures a == b {
      assert SameName(st, a, b);
    }
  }

  lemma CreateKeepsValid(st: Array, name: string)
    requires Valid(st) && HostNamed(st, name).None?
    ensures Valid(CreateHost(st, name))
  {
    forall a, b | SameName(CreateHost(st, name), a, b) ensures a == b {
      if a in st.hosts { assert Named(st, a, st.hosts[a].name); }
      if b in st.hosts { assert Named(st, b, st.hosts[b].name); }
      assert a in st.hosts && b in st.hosts ==> SameName(st, a, b);
    }
  }

  /** What a step keeps of a host that is not named in the request, or that the driver did not create. */
  ghost predicate Keeps(st: Array, op: Op, st': Array) {
    st.next <= st'.next && st'.volumes == st.volumes &&
    (forall h :: h in st.hosts && st.hosts[h].name != op.host ==> h in st'.hosts && st'.hosts[h] == st.hosts[h]) &&
    (forall h :: h in st.hosts && !st.hosts[h].tagged ==> h in st'.hosts && !st'.hosts[h].tagged) &&
    (forall h :: h in st'.hosts && h !in st.hosts ==> st.next <= h && st'.hosts[h].name == op.host) &&
    (forall h :: h in st.hosts && h in st'.hosts ==> st'.hosts[h].name == st.hosts[h].name)
  }

  ghost predicate Mapped(st: Array, h: int, v: int) {
    h in st.hosts && v in st.hosts[h].luns
  }

  /** Mappings disappear only by the request that names them. */
  ghost predicate KeepsMappings(st: Array, op: Op, st': Array) {
    forall h, v {:trigger Mapped(st, h, v)} :: Mapped(st, h, v) && op != UnpublishOp(st.hosts[h].name, v) ==>
      Mapped(st', h, v) && st'.hosts[h].luns[v] == st.hosts[h].luns[v]
  }

  lemma NamedIsUnique(st: Array, h: int)
    requires Valid(st) && h in st.hosts
    ensures HostNamed(st, st.hosts[h].name) == Some(h)
  {
    assert Named(st, h, st.hosts[h].name);
    assert SameName(st, h, HostNamed(st, st.hosts[h].name).value);
  }

  lemma LunsOf(host: Host, v: int)
    ensures v in host.luns ==> |host.luns| > 0
    ensures |host.luns - {v}| == 0 ==> forall u :: u in host.luns ==> u == v
  {
    if v in host.luns { assert |host.luns.Keys| > 0 by { assert v in host.luns.Keys; } }
    if |host.luns - {v}| == 0 {
      assert (host.luns - {v}).Keys == {};
      assert forall u :: u in host.luns && u != v ==> u in (host.luns - {v}).Keys;
    }
  }

  lemma ValidateHostKeeps(st: Array, name: string, f: Script, t: nat)
    requires Valid(st)
    ensures var (st1, h, t1) := ValidateHost(st, name, f, t);
            Valid(st1) && Keeps(st, PublishOp(name, 0, None), st1) &&
            (forall k :: k in st.hosts ==> k in st1.hosts && st1.hosts[k] == st.hosts[k]) &&
            (h.Some? ==> Named(st1, h.value, name)) &&
            (h.None? ==> forall k :: k in st1.hosts && k !in st.hosts ==> !st1.hosts[k].tagged) &&
            (Reliable(f) ==> h.Some?)
  {
    if HostNamed(st, name).None? {
      var created := CreateHost(st, name);
      CreateKeepsValid(st, name);
      PutKeepsValid(created, st.next, created.hosts[st.next].(tagged := true));
    }
  }

  lemma MapLunKeeps(st: Array, h: int, v: int, op: Op)
    requires Valid(st) && h in st.hosts && op.PublishOp? && op.host == st.hosts[h].name && v !in st.hosts[h].luns
    ensures var st' := Put(st, h, MapLun(st.hosts[h], v));
            Valid(st') && Keeps(st, op, st') && KeepsMappings(st, op, st')
  {
    PutKeepsValid(st, h, MapLun(st.hosts[h], v));
    OthersNamedDifferently(st, h);
  }

  lemma PublishOnKeeps(st: Array, h: int, v: int, limit: Option<int>, f: Script, t: nat)
    requires Valid(st) && h in st.hosts
    ensures var o, op := PublishOn(st, h, v, limit, f, t), PublishOp(st.hosts[h].name, v, limit);
            Valid(o.st) && Keeps(st, op, o.st) && KeepsMappings(st, op, o.st) && o.st.hosts.Keys == st.hosts.Keys &&
            (o.ok ==> v in o.st.hosts[h].luns && o.lun == Some(o.st.hosts[h].luns[v]))
  {
    var o, op := PublishOn(st, h, v, limit, f, t), PublishOp(st.hosts[h].name, v, limit);
    assert KeepsMappings(st, op, st);
    if o.st != st {
      assert v !in st.hosts[h].luns && o.st == Put(st, h, MapLun(st.hosts[h], v));
      MapLunKeeps(st, h, v, op);
    }
  }

  lemma OthersNamedDifferently(st: Array, h: int)
    requires Valid(st) && h in st.hosts
    ensures forall k :: k in st.hosts && k != h ==> st.hosts[k].name != st.hosts[h].name
  {
    forall k | k in st.hosts && k != h ensures st.hosts[k].name != st.hosts[h].name {
      assert SameName(st, k, h) ==> k == h;
    }
  }

  lemma ThenKeeps(st: Array, st1: Array, st2: Array, op: Op)
    requires op.PublishOp? && Keeps(st, op, st1) && forall k :: k in st.hosts ==> k in st1.hosts && st1.hosts[k] == st.hosts[k]
    requires Keeps(st1, op, st2) && KeepsMappings(st1, op, st2) && st2.hosts.Keys == st1.hosts.Keys
    ensures Keeps(st, op, st2) && KeepsMappings(st, op, st2)
  {
    forall h, v | Mapped(st, h, v) ensures Mapped(st2, h, v) && st2.hosts[h].luns[v] == st.hosts[h].luns[v] {
      assert Mapped(st1, h, v);
    }
  }

  /** Publishing keeps every mapping and every host; on success the volume is mapped and its LUN reported. */
  lemma PublishKeeps(st: Array, name: string, v: int, limit: Option<int>, f: Script, t: nat)
    requires Valid(st)
    ensures var o, op := Publish(st, name, v, limit, f, t), PublishOp(name, v, limit);
            Valid(o.st) && Keeps(st, op, o.st) && KeepsMappings(st, op, o.st) &&
            (o.ok ==> HostNamed(o.st, name).Some? &&
                      var host := o.st.hosts[HostNamed(o.st, name).value];
                      v in host.luns && o.lun == Some(host.luns[v]))
  {
    ValidateHostKeeps(st, name, f, t);
    var (st1, h, t1) := ValidateHost(st, name, f, t);
    var op := PublishOp(name, v, limit);
    if h.Some? {
      var o := PublishOn(st1, h.value, v, limit, f, t1);
      assert Publish(st, name, v, limit, f, t) == o;
      PublishOnKeeps(st1, h.value, v, limit, f, t1);
      NamedIsUnique(o.st, h.value);
      ThenKeeps(st, st1, o.st, op);
    }
  }

  lemma ListAndCleanKeeps(st: Array, h: int, v: int, f: Script, t: nat)
    requires Valid(st) && h in st.hosts
    ensures var o, op := ListAndClean(st, h, f, t), UnpublishOp(st.hosts[h].name, v);
            Valid(o.st) && Keeps(st, op, o.st) &&
            (h in o.st.hosts ==> o.st == st) &&
            (o.ok && h in o.st.hosts && st.hosts[h].tagged ==> |st.hosts[h].luns| > 0)
  {
    DropKeepsValid(st, h);
    OthersNamedDifferently(st, h);
  }

  /** The host after unmapping, when there was something to unmap. */
  function Unmapped(st: Array, h: int, v: int): Array
    requires h in st.hosts
  {
    var host := st.hosts[h];
    if |host.luns| == 0 then st else Put(st, h, host.(luns := host.luns - {v}))
  }

  lemma UnmappedKeeps(st: Array, h: int, v: int)
    requires Valid(st) && h in st.hosts
    ensures var st1, op := Unmapped(st, h, v), UnpublishOp(st.hosts[h].name, v);
            Valid(st1) && Keeps(st, op, st1) && KeepsMappings(st, op, st1) && st1.hosts.Keys == st.hosts.Keys &&
            v !in st1.hosts[h].luns
  {
    var host := st.hosts[h];
    LunsOf(host, v);
    PutKeepsValid(st, h, host.(luns := host.luns - {v}));
    OthersNamedDifferently(st, h);
  }

  lemma KeepsIsTransitive(st: Array, st1: Array, st2: Array, op: Op)
    requires Keeps(st, op, st1) && Keeps(st1, op, st2) && st1.hosts.Keys <= st.hosts.Keys
    ensures Keeps(st, op, st2)
  {
  }

  /** Unpublishing, whatever calls are lost: hosts of other names and hosts the driver did not create stay; on success
      the volume is unmapped and a host the driver created has a LUN left. */
  lemma UnpublishKeeps(st: Array, name: string, v: int, f: Script, t: nat)
    requires Valid(st)
    ensures var o := Unpublish(st, name, v, f, t);
            Valid(o.st) && Keeps(st, UnpublishOp(name, v), o.st) &&
            (o.ok ==> forall k :: Named(o.st, k, name) ==>
              v !in o.st.hosts[k].luns && (o.st.hosts[k].tagged ==> |o.st.hosts[k].luns| > 0))
  {
    var h := HostNamed(st, name);
    if h.Some? {
      var t1 := if |st.hosts[h.value].luns| == 0 then t + 1 else t + 2;
      CleanAfterUnmap(st, h.value, v, f, t1);
      assert Unpublish(st, name, v, f, t) == ListAndClean(Unmapped(st, h.value, v), h.value, f, t1) ||
             Unpublish(st, name, v, f, t) in {Failed(st, t + 1), Failed(st, t + 2)};
    }
  }

  lemma CleanAfterUnmap(st: Array, h: int, v: int, f: Script, t: nat)
    requires Valid(st) && h in st.hosts
    ensures var name := st.hosts[h].name;
            var o := ListAndClean(Unmapped(st, h, v), h, f, t);
            Valid(o.st) && Keeps(st, UnpublishOp(name, v), o.st) &&
            (o.ok ==> forall k :: Named(o.st, k, name) ==>
              v !in o.st.hosts[k].luns && (o.st.hosts[k].tagged ==> |o.st.hosts[k].luns| > 0))
  {
    var st1, name := Unmapped(st, h, v), st.hosts[h].name;
    var o := ListAndClean(st1, h, f, t);
    UnmappedKeeps(st, h, v);
    ListAndCleanKeeps(st1, h, v, f, t);
    KeepsIsTransitive(st, st1, o.st, UnpublishOp(name, v));
    forall k | Named(o.st, k, name) ensures k == h {
      assert SameName(st1, k, h);
    }
  }

  // ----- when a host in use is deleted -----

  /** The request unmaps one volume and deletes a host that has another one mapped. */
  ghost predicate DeletesBusyHost(st: Array, op: Op, f: Script, t: nat) {
    op.UnpublishOp? &&
    var h := HostNamed(st, op.host);
    h.Some? && st.hosts[h.value].tagged && (exists u :: u in st.hosts[h.value].luns && u != op.volume) &&
    f.call(t) && f.call(t + 1) && !f.listing(t + 2) && f.call(t + 3) && f.call(t + 4)
  }

  /** A host with another LUN on it is deleted exactly if the driver created it, the listing of its LUNs is lost and
      the other calls are answered. */
  lemma BusyHostDeletedIff(st: Array, h: int, u: int, v: int, f: Script, t: nat)
    requires Valid(st) && h in st.hosts && u in st.hosts[h].luns && u != v
    ensures h !in Unpublish(st, st.hosts[h].name, v, f, t).st.hosts <==>
            st.hosts[h].tagged && f.call(t) && f.call(t + 1) && !f.listing(t + 2) && f.call(t + 3) && f.call(t + 4)
  {
    NamedIsUnique(st, h);
    LunsOf(st.hosts[h], u);
    LunsOf(Unmapped(st, h, v).hosts[h], u);
  }

  /** An answered unpublish that leaves the host without LUN removes it exactly if the driver created it. */
  lemma EmptyHostDeletedIff(st: Array, h: int, v: int, f: Script, t: nat)
    requires Valid(st) && h in st.hosts && (forall u :: u in st.hosts[h].luns ==> u == v)
    requires Unpublish(st, st.hosts[h].name, v, f, t).ok
    ensures h !in Unpublish(st, st.hosts[h].name, v, f, t).st.hosts <==> st.hosts[h].tagged
  {
    NamedIsUnique(st, h);
    var st1, name := Unmapped(st, h, v), st.hosts[h].name;
    var t1 := if |st.hosts[h].luns| == 0 then t + 1 else t + 2;
    NoLuns(st1.hosts[h]);
    assert Unpublish(st, name, v, f, t) == ListAndClean(st1, h, f, t1);
    assert st1.hosts[h].tagged == st.hosts[h].tagged && |st1.hosts[h].luns| == 0;
  }

  lemma NoLuns(host: Host)
    ensures |host.luns| == 0 <==> forall u :: u !in host.luns
  {
    if u :| u in host.luns {
      LunsOf(host, u);
    } else {
      assert forall u :: u !in host.luns.Keys;
      assert host.luns.Keys == {};
    }
  }

  /** One mapping of the host that is named in an unpublish stays exactly if the host is not deleted. */
  lemma UnpublishKeepsMapping(st: Array, h: int, u: int, v: int, f: Script, t: nat)
    requires Valid(st) && Mapped(st, h, u) && u != v
    requires !DeletesBusyHost(st, UnpublishOp(st.hosts[h].name, v), f, t)
    ensures var st' := Unpublish(st, st.hosts[h].name, v, f, t).st;
            Mapped(st', h, u) && st'.hosts[h].luns[u] == st.hosts[h].luns[u]
  {
    NamedIsUnique(st, h);
    BusyHostDeletedIff(st, h, u, v, f, t);
    var name := st.hosts[h].name;
    LunsOf(st.hosts[h], u);
    assert h in Unpublish(st, name, v, f, t).st.hosts;
    assert Unpublish(st, name, v, f, t).st in {st, Unmapped(st, h, v)};
  }

  /** A request keeps every mapping but the one it names exactly if it does not delete a host in use. */
  lemma MappingsKeptIff(st: Array, op: Op, f: Script, t: nat)
    requires Valid(st)
    ensures KeepsMappings(st, op, Step(st, op, f, t).st) <==> !DeletesBusyHost(st, op, f, t)
  {
    var st' := Step(st, op, f, t).st;
    if op.PublishOp? {
      PublishKeeps(st, op.host, op.volume, op.limit, f, t);
    } else if DeletesBusyHost(st, op, f, t) {
      var h := HostNamed(st, op.host).value;
      var u :| u in st.hosts[h].luns && u != op.volume;
      BusyHostDeletedIff(st, h, u, op.volume, f, t);
      assert Mapped(st, h, u) && !Mapped(st', h, u);
    } else {
      UnpublishKeeps(st, op.host, op.volume, f, t);
      forall h, u | Mapped(st, h, u) && op != UnpublishOp(st.hosts[h].name, u)
        ensures Mapped(st', h, u) && st'.hosts[h].luns[u] == st.hosts[h].luns[u]
      {
        if st.hosts[h].name == op.host {
          UnpublishKeepsMapping(st, h, u, op.volume, f, t);
        }
      }
    }
  }

  // ----- runs -----

  datatype Progress = Progress(st: Array, failed: set<string>)

  ghost function Next(p: Progress, op: Op, f: Script, t: nat): Progress {
    var o := Step(p.st, op, f, t);
    Progress(o.st, if o.ok then p.failed - {op.host} else p.failed + {op.host})
  }

  /** `failed` are the hosts whose last request failed. */
  ghost function Run(p: Progress, ops: seq<Op>, f: Script, t: nat): Progress
    decreases |ops|
  {
    if ops == [] then p
    else Run(Next(p, ops[0], f, t), ops[1..], f, Step(p.st, ops[0], f, t).clock)
  }

  /** A host the driver created and left without a LUN is one whose last request failed. */
  ghost predicate EmptyOnlyIfFailed(p: Progress) {
    forall h :: h in p.st.hosts && p.st.hosts[h].tagged && |p.st.hosts[h].luns| == 0 ==> p.st.hosts[h].name in p.failed
  }

  /** Every request of the run keeps all mappings but the one it names. */
  ghost predicate MappingsKeptThroughout(p: Progress, ops: seq<Op>, f: Script, t: nat)
    decreases |ops|
  {
    ops != [] ==>
      KeepsMappings(p.st, ops[0], Step(p.st, ops[0], f, t).st) &&
      MappingsKeptThroughout(Next(p, ops[0], f, t), ops[1..], f, Step(p.st, ops[0], f, t).clock)
  }

  /** No request of the run deletes a host in use. */
  ghost predicate Careful(p: Progress, ops: seq<Op>, f: Script, t: nat)
    decreases |ops|
  {
    ops != [] ==>
      !DeletesBusyHost(p.st, ops[0], f, t) &&
      Careful(Next(p, ops[0], f, t), ops[1..], f, Step(p.st, ops[0], f, t).clock)
  }

  /** No request for the host of that name deletes it while it is in use. */
  ghost predicate CarefulFor(p: Progress, ops: seq<Op>, f: Script, t: nat, name: string)
    decreases |ops|
  {
    ops != [] ==>
      (ops[0].host == name ==> !DeletesBusyHost(p.st, ops[0], f, t)) &&
      CarefulFor(Next(p, ops[0], f, t), ops[1..], f, Step(p.st, ops[0], f, t).clock, name)
  }

  /** A careful run is so for each host. */
  lemma {:induction false} CarefulForEach(p: Progress, ops: seq<Op>, f: Script, t: nat, name: string)
    requires Careful(p, ops, f, t)
    ensures CarefulFor(p, ops, f, t, name)
    decreases |ops|
  {
    hide Step, Next, DeletesBusyHost;
    if ops != [] {
      CarefulForEach(Next(p, ops[0], f, t), ops[1..], f, Step(p.st, ops[0], f, t).clock, name);
    }
  }

  lemma {:induction false} ListingKeepsHosts(p: Progress, ops: seq<Op>, f: Script, t: nat)
    requires Listing(f)
    ensures Careful(p, ops, f, t)
    decreases |ops|
  {
    if ops != [] {
      ListingKeepsHosts(Next(p, ops[0], f, t), ops[1..], f, Step(p.st, ops[0], f, t).clock);
    }
  }

  /** While LUN listings answer every run is careful, for each host. */
  lemma ListingIsCareful(p: Progress, ops: seq<Op>, f: Script, t: nat)
    requires Listing(f)
    ensures Careful(p, ops, f, t) && forall name :: CarefulFor(p, ops, f, t, name)
  {
    ListingKeepsHosts(p, ops, f, t);
    forall name ensures CarefulFor(p, ops, f, t, name) {
      CarefulForEach(p, ops, f, t, name);
    }
  }

  lemma StepKeeps(st: Array, op: Op, f: Script, t: nat)
    requires Valid(st)
    ensures var o := Step(st, op, f, t);
            Valid(o.st) && Keeps(st, op, o.st) &&
            (o.ok ==> forall h :: Named(o.st, h, op.host) && o.st.hosts[h].tagged ==> |o.st.hosts[h].luns| > 0)
  {
    var o := Step(st, op, f, t);
    match op {
      case PublishOp(name, v, limit) => PublishKeeps(st, name, v, limit, f, t);
      case UnpublishOp(name, v) => UnpublishKeeps(st, name, v, f, t);
    }
    forall h | o.ok && Named(o.st, h, op.host) && o.st.hosts[h].tagged ensures |o.st.hosts[h].luns| > 0 {
      if op.PublishOp? {
        NamedIsUnique(o.st, h);
        LunsOf(o.st.hosts[h], op.volume);
      }
    }
  }

  lemma NextKeepsFailed(p: Progress, op: Op, f: Script, t: nat)
    requires Valid(p.st) && EmptyOnlyIfFailed(p)
    ensures EmptyOnlyIfFailed(Next(p, op, f, t))
  {
    var o := Step(p.st, op, f, t);
    StepKeeps(p.st, op, f, t);
    forall h | h in o.st.hosts && o.st.hosts[h].tagged && |o.st.hosts[h].luns| == 0
      ensures o.st.hosts[h].name in Next(p, op, f, t).failed
    {
      if o.st.hosts[h].name == op.host {
        assert Named(o.st, h, op.host);
      }
    }
  }

  /** Every run with every script: a host the driver created is without LUN only if the last request for it failed. */
  lemma {:induction false} RunReclaims(p: Progress, ops: seq<Op>, f: Script, t: nat)
    requires Valid(p.st)
    ensures var p' := Run(p, ops, f, t);
            Valid(p'.st) && p'.st.volumes == p.st.volumes && (EmptyOnlyIfFailed(p) ==> EmptyOnlyIfFailed(p'))
    decreases |ops|
  {
    if ops != [] {
      StepKeeps(p.st, ops[0], f, t);
      if EmptyOnlyIfFailed(p) { NextKeepsFailed(p, ops[0], f, t); }
      RunReclaims(Next(p, ops[0], f, t), ops[1..], f, Step(p.st, ops[0], f, t).clock);
    }
  }

  /** Every run with every script: a host the driver did not create stays and stays untagged. */
  lemma {:induction false} UntaggedStays(p: Progress, ops: seq<Op>, f: Script, t: nat, h: int)
    requires Valid(p.st) && h in p.st.hosts && !p.st.hosts[h].tagged
    ensures var p' := Run(p, ops, f, t); h in p'.st.hosts && !p'.st.hosts[h].tagged
    decreases |ops|
  {
    if ops != [] {
      StepKeeps(p.st, ops[0], f, t);
      UntaggedStays(Next(p, ops[0], f, t), ops[1..], f, Step(p.st, ops[0], f, t).clock, h);
    }
  }

  lemma {:induction false} MappingStays(p: Progress, ops: seq<Op>, f: Script, t: nat, h: int, v: int)
    requires Valid(p.st) && Mapped(p.st, h, v) && UnpublishOp(p.st.hosts[h].name, v) !in ops
    requires CarefulFor(p, ops, f, t, p.st.hosts[h].name)
    ensures var st' := Run(p, ops, f, t).st;
            Mapped(st', h, v) && st'.hosts[h].luns[v] == p.st.hosts[h].luns[v] && st'.hosts[h].name == p.st.hosts[h].name
    decreases |ops|
  {
    if ops != [] {
      StepKeeps(p.st, ops[0], f, t);
      if ops[0].host == p.st.hosts[h].name { MappingsKeptIff(p.st, ops[0], f, t); }
      assert UnpublishOp(p.st.hosts[h].name, v) != ops[0];
      MappingStays(Next(p, ops[0], f, t), ops[1..], f, Step(p.st, ops[0], f, t).clock, h, v);
    }
  }

  /** Any run of requests, whatever calls are lost: hosts the driver did not create stay; a host it created is without
      LUN only if the last request for it failed; and, unless its own host is deleted while in use, a mapped LUN stays, under
      its number and with its host, until it is itself unpublished. */
  lemma RunIsSafe(p: Progress, ops: seq<Op>, f: Script, t: nat)
    requires Valid(p.st)
    ensures var p' := Run(p, ops, f, t);
            Valid(p'.st) && (EmptyOnlyIfFailed(p) ==> EmptyOnlyIfFailed(p')) && p'.st.volumes == p.st.volumes &&
            (forall h :: h in p.st.hosts && !p.st.hosts[h].tagged ==> h in p'.st.hosts && !p'.st.hosts[h].tagged)
    ensures var st' := Run(p, ops, f, t).st;
            forall h, v {:trigger Mapped(p.st, h, v)} ::
              Mapped(p.st, h, v) && UnpublishOp(p.st.hosts[h].name, v) !in ops && CarefulFor(p, ops, f, t, p.st.hosts[h].name) ==>
                Mapped(st', h, v) && st'.hosts[h].luns[v] == p.st.hosts[h].luns[v]
  {
    RunReclaims(p, ops, f, t);
    var p' := Run(p, ops, f, t);
    forall h | h in p.st.hosts && !p.st.hosts[h].tagged ensures h in p'.st.hosts && !p'.st.hosts[h].tagged {
      UntaggedStays(p, ops, f, t, h);
    }
    forall h, v | Mapped(p.st, h, v) && UnpublishOp(p.st.hosts[h].name, v) !in ops && CarefulFor(p, ops, f, t, p.st.hosts[h].name)
      ensures Mapped(p'.st, h, v) && p'.st.hosts[h].luns[v] == p.st.hosts[h].luns[v]
    {
      MappingStays(p, ops, f, t, h, v);
    }
  }

  /** Every request of a run keeps the mappings it does not name exactly if none deletes a host in use. */
  lemma {:induction false} RunKeepsMappingsIff(p: Progress, ops: seq<Op>, f: Script, t: nat)
    requires Valid(p.st)
    ensures MappingsKeptThroughout(p, ops, f, t) <==> Careful(p, ops, f, t)
    decreases |ops|
  {
    if ops != [] {
      StepKeeps(p.st, ops[0], f, t);
      MappingsKeptIff(p.st, ops[0], f, t);
      RunKeepsMappingsIff(Next(p, ops[0], f, t), ops[1..], f, Step(p.st, ops[0], f, t).clock);
    }
  }

  /** Publishing the same volume again, after any requests other than its own unpublish, returns the same LUN
      and changes nothing. */
  lemma RepeatedPublish(st: Array, name: string, v: int, limit: Option<int>, f: Script, t: nat,
                        ops: seq<Op>, limit': Option<int>, t': nat)
    requires Valid(st) && Publish(st, name, v, limit, f, t).ok && UnpublishOp(name, v) !in ops
    requires var o := Publish(st, name, v, limit, f, t); CarefulFor(Progress(o.st, {}), ops, f, o.clock, name)
    requires f.call(t') && f.call(t' + 1) && f.call(t' + 2)
    ensures var o := Publish(st, name, v, limit, f, t);
            var later := Run(Progress(o.st, {}), ops, f, o.clock).st;
            var again := Publish(later, name, v, limit', f, t');
            again.ok && again.lun == o.lun && again.st == later
  {
    var o := Publish(st, name, v, limit, f, t);
    PublishKeeps(st, name, v, limit, f, t);
    var later := Run(Progress(o.st, {}), ops, f, o.clock).st;
    var h := HostNamed(o.st, name).value;
    MappingStays(Progress(o.st, {}), ops, f, o.clock, h, v);
    RunReclaims(Progress(o.st, {}), ops, f, o.clock);
    assert later.volumes == o.st.volumes && v in o.st.volumes by { PublishedExists(st, name, v, limit, f, t); }
    NamedIsUnique(later, h);
  }

  lemma PublishedExists(st: Array, name: string, v: int, limit: Option<int>, f: Script, t: nat)
    requires Publish(st, name, v, limit, f, t).ok
    ensures v in Publish(st, name, v, limit, f, t).st.volumes
  {
  }

  // ----- when a publish is granted, and what it leaves -----

  /** The array with one more host. */
  function WithHost(st: Array, host: Host): Array {
    st.(hosts := st.hosts[st.next := host], next := st.next + 1)
  }

  /** For a host that is not there yet: it is created with the first two calls and tagged with the third, whatever becomes of the
      volume; the volume is mapped exactly if all six calls are answered, it exists and the limit allows one volume. */
  lemma FirstPublishIff(st: Array, name: string, v: int, limit: Option<int>, f: Script, t: nat)
    requires Valid(st) && forall k :: k in st.hosts ==> st.hosts[k].name != name
    ensures var o := Publish(st, name, v, limit, f, t);
            (o.ok <==> Answered(f, t, 6) && v in st.volumes && (limit.None? || limit.value >= 1)) &&
            (o.ok ==> o.st == WithHost(st, Host(name, true, map[v := 1], 2)) && o.lun == Some(1)) &&
            (!o.ok ==> o.st == if Answered(f, t, 2) then WithHost(st, Host(name, f.call(t + 2), map[], 1)) else st)
  {
    assert HostNamed(st, name).None?;
    ValidateNew(st, name, f, t);
    hide ValidateHost, HostNamed, Valid, PublishOn;
    if Answered(f, t, 3) { PublishOnBare(st, name, v, limit, f, t + 3); }
    assert Answered(f, t, 6) <==> Answered(f, t, 3) && f.call(t + 3) && f.call(t + 4) && f.call(t + 5);
  }

  lemma PublishOnBare(st: Array, name: string, v: int, limit: Option<int>, f: Script, t: nat)
    ensures var bare, mapped := WithHost(st, Host(name, true, map[], 1)), WithHost(st, Host(name, true, map[v := 1], 2));
            var o := PublishOn(bare, st.next, v, limit, f, t);
            (o.ok <==> f.call(t) && f.call(t + 1) && f.call(t + 2) && v in st.volumes && (limit.None? || limit.value >= 1)) &&
            o.st == (if o.ok then mapped else bare) && (o.ok ==> o.lun == Some(1))
  {
    var bare := WithHost(st, Host(name, true, map[], 1));
    NoLuns(bare.hosts[st.next]);
    assert Put(bare, st.next, Host(name, true, map[v := 1], 2)) == WithHost(st, Host(name, true, map[v := 1], 2));
  }

  lemma ValidateNew(st: Array, name: string, f: Script, t: nat)
    requires HostNamed(st, name).None?
    ensures var (st1, h, t1) := ValidateHost(st, name, f, t);
            st1 == (if Answered(f, t, 2) then WithHost(st, Host(name, f.call(t + 2), map[], 1)) else st) &&
            (h.Some? <==> Answered(f, t, 3)) && (h.Some? ==> h.value == st.next && t1 == t + 3)
  {
    var created := CreateHost(st, name);
    assert created == WithHost(st, Host(name, false, map[], 1));
    assert Put(created, st.next, Host(name, true, map[], 1)) == WithHost(st, Host(name, true, map[], 1));
  }

  /** For a host that is there: the publish is granted exactly if its calls are answered, and the volume exists and is mapped already, or
      the number of LUNs is below the limit; then it is mapped, under the number it has or the host's next one. */
  lemma LaterPublishIff(st: Array, h: int, v: int, limit: Option<int>, f: Script, t: nat)
    requires Valid(st) && h in st.hosts
    ensures var host := st.hosts[h];
            var o := Publish(st, host.name, v, limit, f, t);
            (o.ok <==>
              v in st.volumes &&
              if v in host.luns then Answered(f, t, 3)
              else Answered(f, t, 4) && (limit.None? || (1 <= limit.value && |host.luns| < limit.value))) &&
            (o.ok && v !in host.luns ==>
              o.st == st.(hosts := st.hosts[h := host.(luns := host.luns[v := host.nextLun], nextLun := host.nextLun + 1)])) &&
            (!o.ok || v in host.luns ==> o.st == st)
  {
    NamedIsUnique(st, h);
  }

  /** While the array answers, an unpublish always succeeds: it takes the one mapping away and, if that was the last, the
      host too if the driver created it; a host that is not there is left at that. */
  lemma UnpublishIs(st: Array, h: int, v: int, f: Script, t: nat)
    requires Valid(st) && Reliable(f) && h in st.hosts
    ensures var host, o := st.hosts[h], Unpublish(st, st.hosts[h].name, v, f, t);
            o.ok && o.st ==
              if exists u :: u in host.luns && u != v then st.(hosts := st.hosts[h := host.(luns := host.luns - {v})])
              else if host.tagged then st.(hosts := st.hosts - {h})
              else st.(hosts := st.hosts[h := host.(luns := map[])])
  {
    var host := st.hosts[h];
    NamedIsUnique(st, h);
    var st1 := Unmapped(st, h, v);
    assert st1.hosts - {h} == st.hosts - {h};
    NoLuns(st1.hosts[h]);
    NoLuns(host);
    if forall u :: u in host.luns ==> u == v { assert host.luns - {v} == map[]; }
    assert |host.luns| == 0 ==> host.luns == map[] && st.hosts[h := host.(luns := map[])] == st.hosts;
  }

  lemma UnpublishOfNobody(st: Array, name: string, v: int, f: Script, t: nat)
    requires forall k :: k in st.hosts ==> st.hosts[k].name != name
    ensures var o := Unpublish(st, name, v, f, t); o.st == st && (o.ok <==> f.call(t))
  {
  }

  /** A host that the driver creates is its own: once its only volume is published and unpublished, whatever was lost on the
      way, the host is gone. */
  lemma CreatedHostIsReclaimed(st: Array, name: string, v: int, limit: Option<int>, f: Script, t: nat, g: Script, t': nat)
    requires Valid(st) && (forall k :: k in st.hosts ==> st.hosts[k].name != name) && Publish(st, name, v, limit, f, t).ok
    ensures var published := Publish(st, name, v, limit, f, t).st;
            published.hosts.Keys == st.hosts.Keys + {st.next} &&
            (Unpublish(published, name, v, g, t').ok ==> Unpublish(published, name, v, g, t').st == st.(next := st.next + 1))
  {
    assert HostNamed(st, name).None?;
    CreatedBySuccess(st, name, v, limit, f, t);
    PublishKeeps(st, name, v, limit, f, t);
    LoneVolumeUnpublished(st, name, v, g, t');
  }

  lemma LoneVolumeUnpublished(st: Array, name: string, v: int, g: Script, t: nat)
    requires Valid(st) && Valid(WithHost(st, Host(name, true, map[v := 1], 2)))
    ensures var o := Unpublish(WithHost(st, Host(name, true, map[v := 1], 2)), name, v, g, t);
            o.ok ==> o.st == st.(next := st.next + 1)
  {
    var p, h := WithHost(st, Host(name, true, map[v := 1], 2)), st.next;
    var o := Unpublish(p, name, v, g, t);
    NamedIsUnique(p, h);
    LunsOf(p.hosts[h], v);
    var bare := Host(name, true, map[], 2);
    assert p.hosts[h].luns - {v} == map[];
    NoLuns(bare);
    assert Put(p, h, bare) == WithHost(st, bare);
    if o.ok {
      assert o == ListAndClean(WithHost(st, bare), h, g, t + 2);
      assert WithHost(st, bare).hosts - {h} == st.hosts;
    }
  }

  lemma CreatedBySuccess(st: Array, name: string, v: int, limit: Option<int>, f: Script, t: nat)
    requires Valid(st) && HostNamed(st, name).None? && Publish(st, name, v, limit, f, t).ok
    ensures Publish(st, name, v, limit, f, t).st == WithHost(st, Host(name, true, map[v := 1], 2))
  {
    var created := CreateHost(st, name);
    var tagged := Put(created, st.next, created.hosts[st.next].(tagged := true));
    assert tagged == WithHost(st, Host(name, true, map[], 1));
    assert Publish(st, name, v, limit, f, t) == PublishOn(tagged, st.next, v, limit, f, t + 3);
    assert Put(tagged, st.next, Host(name, true, map[v := 1], 2)) == WithHost(st, Host(name, true, map[v := 1], 2));
  }

  // ----- what the assumptions are for -----

  /** A node with the volumes 7 and 8 mapped. */
  function BusyNode(): Array {
    Array(map[1 := Host("node", true, map[7 := 1, 8 := 2], 3)], 2, {7, 8})
  }

  /** A lost LUN listing lets an unpublish of one volume delete a host that still has another one mapped. */
  lemma LostListingDeletesHost(f: Script, t: nat)
    requires Answers(f) && !f.listing(t + 2)
    ensures Valid(BusyNode()) && 8 in BusyNode().hosts[1].luns
    ensures var o := Unpublish(BusyNode(), "node", 7, f, t); o.ok && 1 !in o.st.hosts
  {
    var st := BusyNode();
    NamedIsUnique(st, 1);
    LunsOf(st.hosts[1], 7);
    var st1 := Unmapped(st, 1, 7);
    assert st1.hosts[1].tagged;
    assert ListAndClean(st1, 1, f, t + 2).ok;
  }

  /** A host whose tag could not be written is never reclaimed: it stays through every later run. */
  lemma UntaggedHostStays(st: Array, name: string, v: int, limit: Option<int>, f: Script, t: nat, ops: seq<Op>)
    requires Valid(st) && HostNamed(st, name).None?
    requires f.call(t) && f.call(t + 1) && !f.call(t + 2)
    ensures var o := Publish(st, name, v, limit, f, t);
            !o.ok && st.next in Run(Progress(o.st, {}), ops, f, o.clock).st.hosts
  {
    var o := Publish(st, name, v, limit, f, t);
    PublishKeeps(st, name, v, limit, f, t);
    UntaggedStays(Progress(o.st, {}), ops, f, o.clock, st.next);
  }

  /** On an array without hosts, a publish that loses its third call leaves host 1 there for ever. */
  lemma UntaggedHostExample(f: Script, ops: seq<Op>)
    requires forall n :: f.call(n) <==> n != 2
    ensures var o := Publish(Array(map[], 1, {7}), "node", 7, None, f, 0);
            !o.ok && 1 in Run(Progress(o.st, {}), ops, f, o.clock).st.hosts
  {
    var st := Array(map[], 1, {7});
    assert HostNamed(st, "node").None?;
    UntaggedHostStays(st, "node", 7, None, f, 0, ops);
  }
}
