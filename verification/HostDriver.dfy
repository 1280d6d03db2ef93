/** Publishing and unpublishing block volumes, call by call. */
module HostDriver {
  import opened Basics
  import opened Faults
  import opened Hosts

  class HostArray {
    var st: Array
    var clock: nat
    const script: Script

    constructor (st: Array, script: Script)
      ensures this.st == st && this.script == script && clock == 0
    {
      this.st, this.script, clock := st, script, 0;
    }

    // ----- calls of the array -----

    method Call() returns (ok: bool)
      modifies this`clock
      ensures clock == old(clock) + 1 && ok == script.call(old(clock))
    {
      ok := script.call(clock);
      clock := clock + 1;
    }

    method GetHostByName(name: string) returns (r: Reply<int>)
      requires Valid(st)
      modifies this`clock
      ensures clock == old(clock) + 1
      ensures r == if !script.call(old(clock)) then Lost
                   else match HostNamed(st, name) case None => NotFound case Some(h) => Answer(h)
    {
      var ok := Call();
      if !ok { return Lost; }
      if h :| h in st.hosts && st.hosts[h].name == name {
        NamedIsUnique(st, h);
        return Answer(h);
      }
      assert forall k :: k in st.hosts ==> st.hosts[k].name != name;
      return NotFound;
    }

    /** The LUNs of a host; empty when the first page is lost. */
    method GetAllLunByHost(h: int) returns (luns: map<int, int>)
      requires h in st.hosts
      modifies this`clock
      ensures clock == old(clock) + 1
      ensures luns == if script.listing(old(clock)) then st.hosts[h].luns else map[]
    {
      luns := if script.listing(clock) then st.hosts[h].luns else map[];
      clock := clock + 1;
    }

    // ----- the driver -----

    method FindOrCreateHost(name: string) returns (h: Option<int>)
      requires Valid(st)
      modifies this
      ensures (st, h, clock) == ValidateHost(old(st), name, script, old(clock))
      ensures h.Some? ==> h.value in st.hosts
    {
      var found := GetHostByName(name);
      if found.Answer? {
        return Some(found.value);
      } else if found.Lost? {
        return None;
      }
      var ok := Call();
      if !ok { return None; }
      var id := st.next;
      st := CreateHost(st, name);
      ok := Call();
      if !ok { return None; }
      st := Put(st, id, st.hosts[id].(tagged := true));
      h := Some(id);
    }

    /** A mapping that exists already is looked up instead. */
    method MapVolumeToHost(v: int, h: int) returns (lun: Option<int>)
      requires h in st.hosts
      modifies this
      ensures script.call(old(clock)) && v !in old(st).hosts[h].luns ==>
                lun == Some(old(st).hosts[h].nextLun) && st == Put(old(st), h, MapLun(old(st).hosts[h], v)) && clock == old(clock) + 1
      ensures !(script.call(old(clock)) && v !in old(st).hosts[h].luns) ==> st == old(st)
      ensures !script.call(old(clock)) ==> lun == None && clock == old(clock) + 1
      ensures script.call(old(clock)) && v in old(st).hosts[h].luns ==>
                clock == old(clock) + 2 && lun == if script.call(old(clock) + 1) then Some(st.hosts[h].luns[v]) else None
    {
      var ok := Call();
      if !ok { return None; }
      if v in st.hosts[h].luns {
        ok := Call();
        return if ok then Some(st.hosts[h].luns[v]) else None;
      }
      lun := Some(st.hosts[h].nextLun);
      st := Put(st, h, MapLun(st.hosts[h], v));
    }

    method ControllerPublishVolume(name: string, v: int, limit: Option<int>) returns (ok: bool, lun: Option<int>)
      requires Valid(st)
      modifies this
      ensures Outcome(st, ok, lun, clock) == Publish(old(st), name, v, limit, script, old(clock))
    {
      hide ValidateHost, Valid;
      lun := None;
      var found := FindOrCreateHost(name);
      if found.None? { return false, None; }
      var h := found.value;
      ok := Call();
      if !ok || v !in st.volumes { return false, None; }
      ok := Call();
      if !ok { return; }
      var luns := st.hosts[h].luns;
      if v in luns {
        return true, Some(luns[v]);
      }
      if limit.Some? && (limit.value < 1 || |luns| >= limit.value) {
        return false, None;
      }
      lun := MapVolumeToHost(v, h);
      ok := lun.Some?;
    }

    /** A host or LUN that is gone already counts as unmapped. */
    method UnmapVolumeFromHost(h: int, v: int) returns (ok: bool)
      modifies this
      ensures clock == old(clock) + 1 && ok == script.call(old(clock))
      ensures st == if ok && h in old(st).hosts
                    then Put(old(st), h, old(st).hosts[h].(luns := old(st).hosts[h].luns - {v})) else old(st)
    {
      ok := Call();
      if ok && h in st.hosts {
        var host := st.hosts[h];
        st := Put(st, h, host.(luns := host.luns - {v}));
      }
    }

    /** Deletes the host if the driver created it. */
    method HostCleanup(h: int) returns (ok: bool)
      requires h in st.hosts
      modifies this
      ensures if !script.call(old(clock)) then !ok && st == old(st) && clock == old(clock) + 1
              else if !old(st).hosts[h].tagged then ok && st == old(st) && clock == old(clock) + 1
              else ok == script.call(old(clock) + 1) && clock == old(clock) + 2 &&
                   st == if ok then old(st).(hosts := old(st).hosts - {h}) else old(st)
    {
      ok := Call();
      if !ok { return; }
      if st.hosts[h].tagged {
        ok := Call();
        if ok { st := st.(hosts := st.hosts - {h}); }
      }
    }

    /** The LUNs are read again; a host without any is cleaned up. */
    method CleanIfEmpty(h: int) returns (ok: bool)
      requires h in st.hosts
      modifies this
      ensures Outcome(st, ok, None, clock) == ListAndClean(old(st), h, script, old(clock))
    {
      var luns := GetAllLunByHost(h);
      assert |luns| == 0 <==> !script.listing(old(clock)) || |st.hosts[h].luns| == 0;
      if |luns| == 0 {
        ok := HostCleanup(h);
      } else {
        ok := true;
      }
    }

    method ControllerUnpublishVolume(name: string, v: int) returns (ok: bool)
      requires Valid(st)
      modifies this
      ensures Outcome(st, ok, None, clock) == Unpublish(old(st), name, v, script, old(clock))
    {
      var found := GetHostByName(name);
      if !found.Answer? { return found.NotFound?; }
      var h, host := found.value, st.hosts[found.value];
      if |host.luns| > 0 {
        ok := UnmapVolumeFromHost(h, v);
        if !ok { return; }
      }
      ok := CleanIfEmpty(h);
    }
  }
}
