/** Rounding of requested capacities, in 64-bit arithmetic. */
module Capacity {
  import opened Basics
  import opened Faults
  import opened Forest
  import opened Snapshots

  const GB: int := 1_000_000_000
  const GIB: int := 0x4000_0000

  function RoundUp(n: int): int {
    if n < GB then GB
    else if GB < n < GIB then GIB
    else if n % GB == 0 then n
    else if n % GIB == 0 then n
    else Wrap((n / GIB + 1) * GIB)
  }

  /** The largest whole number of GiB that fits. */
  const LIMIT: int := MAX_INT + 1 - GIB

  lemma NextGiB(n: int)
    ensures n < (n / GIB + 1) * GIB <= n + GIB
  {
  }

  predicate Whole(n: int) {
    n % GB == 0 || n % GIB == 0
  }

  /** What a rounded capacity means: a whole number of GB or GiB, at least the request, less than a GiB more; and
      where it is rounded to GiB, no smaller whole number of GiB would do. */
  lemma RoundUpIsCeiling(n: int)
    requires 0 <= n <= LIMIT
    ensures var r := RoundUp(n);
            IsInt(r) && Whole(r) && n <= r < n + GIB &&
            (n >= GB && !Whole(n) ==> r % GIB == 0 && forall k :: n <= k * GIB ==> r <= k * GIB)
  {
    NextGiB(n);
    if n >= GB && !Whole(n) {
      var q := n / GIB;
      assert RoundUp(n) == (q + 1) * GIB by {
        if n < GIB { assert q == 0; }
      }
      forall k | n <= k * GIB ensures (q + 1) * GIB <= k * GIB {
        assert k > q;
      }
    }
  }

  /** Less than 1 GB becomes 1 GB, a whole number of GB or GiB is kept, and anything else becomes the next whole
      number of GiB, in 64-bit arithmetic. */
  lemma RoundUpCases(n: int)
    requires IsInt(n)
    ensures n < 1_000_000_000 ==> RoundUp(n) == 1_000_000_000
    ensures n >= 1_000_000_000 && (n % 1_000_000_000 == 0 || n % 1_073_741_824 == 0) ==> RoundUp(n) == n
    ensures n >= 1_000_000_000 && n % 1_000_000_000 != 0 && n % 1_073_741_824 != 0 ==>
              RoundUp(n) == Wrap((n / 1_073_741_824 + 1) * 1_073_741_824)
  {
  }

  /** Rounding a rounded capacity changes nothing. */
  lemma RoundUpIdempotent(n: int)
    requires IsInt(n) && n <= LIMIT
    ensures RoundUp(RoundUp(n)) == RoundUp(n)
  {
    if n >= GB {
      RoundUpIsCeiling(n);
    }
  }

  /** Above the limit the multiplication overflows. A request comes out too small exactly if
      it lies above the limit and is no whole number of GB. */
  lemma TooSmallIffOverflow(n: int)
    requires IsInt(n)
    ensures RoundUp(n) < n <==> n > LIMIT && n % GB != 0
  {
    if 0 <= n <= LIMIT {
      RoundUpIsCeiling(n);
    } else if n > LIMIT && n % GB != 0 {
      assert n / GIB + 1 == 0x2_0000_0000;
      assert n % GIB != 0;
      assert RoundUp(n) == MIN_INT;
    }
  }

  /** The largest request comes out as the smallest integer. */
  lemma LargestRequestIsNegative()
    ensures RoundUp(MAX_INT) == MIN_INT
  {
    assert MAX_INT / GIB + 1 == 0x2_0000_0000;
  }

  /** determineCapacity, with the round_up_requested_size parameter already read. */
  function CreateCapacity(required: int, roundUp: bool): int {
    if roundUp then RoundUp(required) else required
  }

  /** The capacity part of ControllerExpandVolume. */
  function ExpandCapacity(required: int): int {
    RoundUp(if required < GIB then GIB else required)
  }

  /** Asking for the size a volume already has keeps it, except for volumes under a GiB, which grow to one. */
  lemma ExpandToOwnSize(required: int)
    requires IsInt(required) && required <= LIMIT
    ensures var size := CreateCapacity(required, true);
            ExpandCapacity(size) == if size < GIB then GIB else size
  {
    RoundUpIdempotent(required);
    if required >= GB { RoundUpIsCeiling(required); }
  }

  /** Expanding gives at least the request, at least 1 GiB, and a whole number of GB or GiB; without rounding a volume is created with
      exactly the size asked for. */
  lemma ExpandCovers(required: int)
    requires IsInt(required) && required <= LIMIT
    ensures var size := ExpandCapacity(required);
            required <= size && 1_073_741_824 <= size && Whole(size) && size < required + GIB + (if required < GIB then GIB - required else 0)
    ensures CreateCapacity(required, false) == required
  {
    RoundUpIsCeiling(if required < GIB then GIB else required);
  }

  /** A clone requested at the size of a source that was created with a rounded capacity is never refused for its size:
      while the array answers it is created whenever pool and name allow it, with that size and in that pool, and nothing
      else changes. */
  lemma CloneOfRoundedSource(w: World, source: int, required: int, name: string, promote: bool, f: Script, t: nat)
    requires Registered(w) && Reliable(f) && source in w.volumes && !NameTaken(w.volumes, name)
    requires IsInt(required) && required <= LIMIT && w.volumes[source].size == CreateCapacity(required, true)
    ensures var v := w.volumes[source];
            var r := CloneOutcome(w, name, source, CreateCapacity(v.size, true), v.pool, promote, f, t);
            r.id == Some(w.next) && r.world.volumes.Keys == w.volumes.Keys + {w.next} &&
            (forall u :: u in w.volumes ==> r.world.volumes[u] == w.volumes[u]) &&
            var clone := r.world.volumes[w.next];
            clone.name == name && clone.size == v.size && clone.pool == v.pool && !clone.locked &&
            clone.parent == if promote then 0 else source
  {
    RoundUpIdempotent(required);
    var v := w.volumes[source];
    CreatedClone(w, name, source, CreateCapacity(v.size, true), v.pool, promote, f, t);
  }
}
