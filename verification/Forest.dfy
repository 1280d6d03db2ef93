/** The snapshot/clone forest an array keeps, and the driver's deferred deletion on it
    when every call to the array is answered.

    A volume that still has snapshots or clones is only marked; it is removed later,
    when its last child goes. `Request` is that behaviour as a function of the store;
    the rest of the module says what a whole sequence of requests leaves behind.
  */
module Forest {

  const TO_BE_DELETED := "host.k8s.to_be_deleted"

  /** `parent == 0` means that the volume is a root; `tags` are its metadata keys. */
  datatype Volume = Volume(name: string, parent: int, size: int, pool: int, locked: bool, tags: seq<string>)

  type Store = map<int, Volume>

  predicate Marked(v: Volume) {
    TO_BE_DELETED in v.tags
  }

  function Tagged(v: Volume, key: string): Volume {
    if key in v.tags then v else v.(tags := v.tags + [key])
  }

  function AddTag(v: Volume): Volume {
    Tagged(v, TO_BE_DELETED)
  }

  /** The volume has the mark, and everything else, its other metadata included, is as it was. */
  ghost predicate GainsMark(v: Volume, v': Volume) {
    v'.(tags := v.tags) == v && v.tags <= v'.tags &&
    ("host.k8s.to_be_deleted" in v.tags ==> v'.tags == v.tags) &&
    forall k :: k in v'.tags <==> k in v.tags || k == "host.k8s.to_be_deleted"
  }

  lemma AddTagGainsMark(v: Volume)
    ensures GainsMark(v, AddTag(v))
    ensures Marked(v) ==> forall v' :: GainsMark(v, v') ==> v' == v
  {
  }

  predicate HasChildren(s: Store, id: int) {
    exists c :: c in s && s[c].parent == id
  }

  function Mark(s: Store, id: int): Store
    requires id in s
  {
    s[id := AddTag(s[id])]
  }

  function ClearTags(s: Store, id: int): Store
    requires id in s
  {
    s[id := s[id].(tags := [])]
  }

  // ----- what every store of the array satisfies -----

  /** No volume has lost its parent. */
  ghost predicate Closed(s: Store) {
    0 !in s && forall v :: v in s ==> s[v].parent == 0 || s[v].parent in s
  }

  ghost predicate Ranks(s: Store, rank: map<int, nat>) {
    s.Keys <= rank.Keys &&
    forall v :: v in s && s[v].parent in s ==> rank[s[v].parent] < rank[v]
  }

  ghost predicate Acyclic(s: Store) {
    exists rank :: Ranks(s, rank)
  }

  ghost predicate IsForest(s: Store) {
    Closed(s) && Acyclic(s)
  }

  ghost predicate MarkedUnlocked(s: Store) {
    forall v :: v in s && Marked(s[v]) ==> !s[v].locked
  }

  /** No volume waits for deletion without a child to wait for. */
  ghost predicate NoMarkedLeaf(s: Store) {
    forall v :: v in s && Marked(s[v]) ==> HasChildren(s, v)
  }

  // ----- one request, every call answered -----

  /** Volume `p` may just have lost its last child: remove it if it waits for that, and go on upwards. */
  function CollectUp(s: Store, p: int): Store
    decreases |s|
  {
    if p in s && Marked(s[p]) && !HasChildren(s, p) then
      CollectUp(s - {p}, s[p].parent)
    else
      s
  }

  function Request(s: Store, id: int): Store {
    if id !in s || s[id].locked then s
    else if HasChildren(s, id) then Mark(s, id)
    else CollectUp(s - {id}, s[id].parent)
  }

  function RunRequests(s: Store, ids: seq<int>): Store
    decreases |ids|
  {
    if ids == [] then s
    else RunRequests(Request(s, ids[0]), ids[1..])
  }

  // ----- what a set of requests should leave behind -----

  /** `live` is what remains of `s0` once the volumes in `req` were given up: a volume stays
      exactly if nobody gave it up or one of its children stays. */
  ghost predicate Survivors(s0: Store, req: set<int>, live: set<int>) {
    live <= s0.Keys &&
    forall v :: v in s0 ==> (v in live <==> v !in req || exists c :: c in live && s0[c].parent == v)
  }

  /** The requests in `ids` that take effect: those for volumes that exist and are not locked. */
  ghost function Effective(s0: Store, ids: seq<int>): set<int> {
    set v | v in s0 && v in ids && !s0[v].locked
  }

  ghost function InitiallyMarked(s0: Store): set<int> {
    set v | v in s0 && Marked(s0[v])
  }

  /** `s` is `s0` cut down to its survivors, with exactly the given-up ones marked. */
  ghost predicate Reflects(s0: Store, req: set<int>, s: Store) {
    Survivors(s0, req, s.Keys) && Values(s0, req, s)
  }

  ghost predicate Values(s0: Store, req: set<int>, s: Store) {
    s.Keys <= s0.Keys &&
    req <= s0.Keys &&
    (forall v :: v in s0 && v in req ==> !s0[v].locked) &&
    (forall v :: v in s0 && Marked(s0[v]) ==> v in req) &&
    forall v :: v in s ==> s[v] == if v in req then AddTag(s0[v]) else s0[v]
  }

  /** Like Reflects, except that `p` may still be there without a reason. */
  ghost predicate Pending(s0: Store, req: set<int>, s: Store, p: int) {
    Values(s0, req, s) &&
    forall v :: v in s0 ==>
      var reason := v !in req || exists c :: c in s && s0[c].parent == v;
      (reason ==> v in s) && (v in s && v != p ==> reason)
  }

  lemma {:induction false} CollectUpSettles(s0: Store, req: set<int>, s: Store, p: int)
    requires Acyclic(s0) && Pending(s0, req, s, p)
    ensures Reflects(s0, req, CollectUp(s, p))
    decreases |s|
  {
    if p in s && Marked(s[p]) && !HasChildren(s, p) {
      var rank :| Ranks(s0, rank);
      CollectUpSettles(s0, req, s - {p}, s[p].parent);
    } else if p in s && HasChildren(s, p) {
      var c :| c in s && s[c].parent == p;
      assert s0[c].parent == p;
    }
  }

  /** One request moves the store from the residue of `req` to the residue of `req` plus that request. */
  lemma RequestSettles(s0: Store, req: set<int>, s: Store, id: int)
    requires Acyclic(s0) && Reflects(s0, req, s)
    ensures Reflects(s0, req + Effective(s0, [id]), Request(s, id))
  {
    var req' := req + Effective(s0, [id]);
    if id in s && !s[id].locked {
      var rank :| Ranks(s0, rank);
      if HasChildren(s, id) {
        var c :| c in s && s[c].parent == id;
        assert s0[c].parent == id;
      } else {
        CollectUpSettles(s0, req', s - {id}, s[id].parent);
      }
    } else if id in s0 {
      assert id !in s ==> id in req;
      assert req' == req;
    } else {
      assert req' == req;
    }
  }

  lemma EffectiveStep(s0: Store, req: set<int>, ids: seq<int>)
    requires ids != []
    ensures req + Effective(s0, ids) == req + Effective(s0, [ids[0]]) + Effective(s0, ids[1..])
  {
    assert ids == [ids[0]] + ids[1..];
    assert Effective(s0, ids) == Effective(s0, [ids[0]]) + Effective(s0, ids[1..]);
  }

  lemma {:induction false} RunSettles(s0: Store, req: set<int>, s: Store, ids: seq<int>)
    requires Acyclic(s0) && Reflects(s0, req, s)
    ensures Reflects(s0, req + Effective(s0, ids), RunRequests(s, ids))
    decreases |ids|
  {
    if ids == [] {
      assert req + Effective(s0, ids) == req;
    } else {
      RequestSettles(s0, req, s, ids[0]);
      RunSettles(s0, req + Effective(s0, [ids[0]]), Request(s, ids[0]), ids[1..]);
      EffectiveStep(s0, req, ids);
    }
  }

  // ----- the residue is unique -----

  ghost predicate Bounds(s: Store, rank: map<int, nat>, bound: nat) {
    Ranks(s, rank) && forall v :: v in s ==> rank[v] <= bound
  }

  lemma {:induction false} RankBound(s: Store, rank: map<int, nat>, keys: set<int>) returns (bound: nat)
    requires Ranks(s, rank) && keys <= s.Keys
    ensures forall v :: v in keys ==> rank[v] <= bound
    decreases keys
  {
    bound := 0;
    if v :| v in keys {
      bound := RankBound(s, rank, keys - {v});
      if bound < rank[v] { bound := rank[v]; }
    }
  }

  lemma {:induction false} SurvivorInBoth(s0: Store, rank: map<int, nat>, bound: nat, req: set<int>, a: set<int>, b: set<int>, v: int)
    requires Bounds(s0, rank, bound) && Survivors(s0, req, a) && Survivors(s0, req, b)
    requires v in a
    ensures v in b
    decreases bound - rank[v]
  {
    if v in req {
      var c :| c in a && s0[c].parent == v;
      SurvivorInBoth(s0, rank, bound, req, a, b, c);
    }
  }

  lemma SurvivorsUnique(s0: Store, req: set<int>, a: set<int>, b: set<int>)
    requires Acyclic(s0) && Survivors(s0, req, a) && Survivors(s0, req, b)
    ensures a == b
  {
    var rank :| Ranks(s0, rank);
    var bound := RankBound(s0, rank, s0.Keys);
    forall v | v in s0 ensures v in a <==> v in b {
      if v in a { SurvivorInBoth(s0, rank, bound, req, a, b, v); }
      if v in b { SurvivorInBoth(s0, rank, bound, req, b, a, v); }
    }
  }

  // ----- survivors in terms of descendants -----

  /** The volume `n` parent links above `v`; 0 once the root is passed. */
  ghost function Climb(s: Store, v: int, n: nat): int
    decreases n
  {
    if n == 0 then v
    else if v in s then Climb(s, s[v].parent, n - 1)
    else 0
  }

  ghost predicate HasUnrequested(s0: Store, req: set<int>, v: int) {
    exists d, n: nat :: d in s0 && d !in req && Climb(s0, d, n) == v
  }

  lemma {:induction false} ClimbSnoc(s: Store, d: int, n: nat)
    requires 0 !in s && Climb(s, d, n) in s
    ensures Climb(s, d, n + 1) == s[Climb(s, d, n)].parent
    decreases n
  {
    if n == 0 {
      assert Climb(s, s[d].parent, 0) == s[d].parent;
    } else {
      ClimbSnoc(s, s[d].parent, n - 1);
    }
  }

  lemma {:induction false} UnrequestedBelow(s0: Store, rank: map<int, nat>, bound: nat, req: set<int>, live: set<int>, v: int)
      returns (d: int, n: nat)
    requires 0 !in s0 && Bounds(s0, rank, bound) && Survivors(s0, req, live) && v in live
    ensures d in s0 && d !in req && Climb(s0, d, n) == v
    decreases bound - rank[v]
  {
    if v in req {
      var c :| c in live && s0[c].parent == v;
      d, n := UnrequestedBelow(s0, rank, bound, req, live, c);
      ClimbSnoc(s0, d, n);
      n := n + 1;
    } else {
      d, n := v, 0;
    }
  }

  lemma {:induction false} AncestorSurvives(s0: Store, req: set<int>, live: set<int>, d: int, n: nat)
    requires Survivors(s0, req, live) && d in live && Climb(s0, d, n) in s0
    requires 0 !in s0
    ensures Climb(s0, d, n) in live
    decreases n
  {
    if n > 0 {
      AncestorSurvives(s0, req, live, s0[d].parent, n - 1);
    }
  }

  // ----- the theorems -----

  /** Exact residue of any sequence of requests, in any order and with repetitions: a volume stays
      exactly if some volume at or below it was not given up, and nothing but marks changes. */
  lemma ResidueOfRequests(s0: Store, ids: seq<int>)
    requires IsForest(s0) && MarkedUnlocked(s0) && NoMarkedLeaf(s0)
    ensures var s, req := RunRequests(s0, ids), InitiallyMarked(s0) + Effective(s0, ids);
            (forall v :: v in s0 ==> (v in s <==> HasUnrequested(s0, req, v))) &&
            s.Keys <= s0.Keys &&
            (forall v :: v in s && v !in req ==> s[v] == s0[v]) && (forall v :: v in s && v in req ==> GainsMark(s0[v], s[v]))
  {
    var s, req := RunRequests(s0, ids), InitiallyMarked(s0) + Effective(s0, ids);
    forall v | v in s0 { AddTagGainsMark(s0[v]); }
    StartReflects(s0);
    RunSettles(s0, InitiallyMarked(s0), s0, ids);
    var rank :| Ranks(s0, rank);
    var bound := RankBound(s0, rank, s0.Keys);
    forall v | v in s0 ensures v in s <==> HasUnrequested(s0, req, v) {
      if v in s {
        var d, n := UnrequestedBelow(s0, rank, bound, req, s.Keys, v);
      }
      if HasUnrequested(s0, req, v) {
        var d, n: nat :| d in s0 && d !in req && Climb(s0, d, n) == v;
        AncestorSurvives(s0, req, s.Keys, d, n);
      }
    }
  }

  lemma StartReflects(s0: Store)
    requires MarkedUnlocked(s0) && NoMarkedLeaf(s0)
    ensures Reflects(s0, InitiallyMarked(s0), s0)
  {
    forall v | v in s0 && Marked(s0[v])
      ensures exists c :: c in s0.Keys && s0[c].parent == v
    {
      var c :| c in s0 && s0[c].parent == v;
    }
  }

  lemma ReflectsUnique(s0: Store, req: set<int>, a: Store, b: Store)
    requires Acyclic(s0) && Reflects(s0, req, a) && Reflects(s0, req, b)
    ensures a == b
  {
    SurvivorsUnique(s0, req, a.Keys, b.Keys);
    assert forall v :: v in a ==> a[v] == b[v];
  }

  lemma EffectiveSame(s0: Store, a: seq<int>, b: seq<int>)
    requires forall v :: v in s0 ==> (v in a <==> v in b)
    ensures Effective(s0, a) == Effective(s0, b)
  {
    forall v | v in s0 ensures v in Effective(s0, a) <==> v in Effective(s0, b) {}
  }

  /** Order and repetition of the requests do not matter at all. */
  lemma OrderIndependent(s0: Store, a: seq<int>, b: seq<int>)
    requires IsForest(s0) && MarkedUnlocked(s0) && NoMarkedLeaf(s0)
    requires forall v :: v in s0 ==> (v in a <==> v in b)
    ensures RunRequests(s0, a) == RunRequests(s0, b)
  {
    var m := InitiallyMarked(s0);
    StartReflects(s0);
    RunSettles(s0, m, s0, a);
    RunSettles(s0, m, s0, b);
    EffectiveSame(s0, a, b);
    ReflectsUnique(s0, m + Effective(s0, a), RunRequests(s0, a), RunRequests(s0, b));
  }

  /** Everything is reclaimed exactly if every volume is unlocked and was given up at some point. */
  lemma ReclaimedIffAllRequested(s0: Store, ids: seq<int>)
    requires IsForest(s0) && MarkedUnlocked(s0) && NoMarkedLeaf(s0)
    ensures RunRequests(s0, ids) == map[] <==>
            forall v :: v in s0 ==> Marked(s0[v]) || (v in ids && !s0[v].locked)
  {
    var s, req := RunRequests(s0, ids), InitiallyMarked(s0) + Effective(s0, ids);
    ResidueOfRequests(s0, ids);
    forall v | v in s0 && !(Marked(s0[v]) || (v in ids && !s0[v].locked))
      ensures v in s
    {
      assert Climb(s0, v, 0) == v;
    }
    if forall v :: v in s0 ==> Marked(s0[v]) || (v in ids && !s0[v].locked) {
      forall v | v in s0 ensures v !in s {
        assert v in req;
      }
      assert s.Keys <= {};
    }
  }

  /** Between requests no volume is ever left marked without a child, orphaned or locked and marked. */
  lemma RequestKeepsInvariant(s: Store, id: int)
    requires IsForest(s) && MarkedUnlocked(s) && NoMarkedLeaf(s)
    ensures var s' := Request(s, id);
            IsForest(s') && MarkedUnlocked(s') && NoMarkedLeaf(s')
  {
    var s', req := Request(s, id), InitiallyMarked(s) + Effective(s, [id]);
    StartReflects(s);
    RequestSettles(s, InitiallyMarked(s), s, id);
    var rank :| Ranks(s, rank);
    assert Ranks(s', rank);
    forall v | v in s' && Marked(s'[v]) ensures HasChildren(s', v) {
      var c :| c in s'.Keys && s[c].parent == v;
      assert s'[c].parent == v;
    }
  }

  // ----- the exact effect of one request -----

  /** `q` has no child in `s` other than `c`. */
  ghost predicate OnlyChild(s: Store, q: int, c: int) {
    forall d :: d in s && s[d].parent == q ==> d == c
  }

  /** Climbing from a volume that ranks under `p` never meets `p`. */
  lemma {:induction false} ClimbAvoids(s: Store, rank: map<int, nat>, p: int, v: int, n: nat)
    requires Ranks(s, rank) && 0 !in s && p in s && (v in s ==> rank[v] < rank[p])
    ensures Climb(s - {p}, v, n) == Climb(s, v, n) != p
    decreases n
  {
    if n > 0 && v in s {
      assert v in s - {p} && (s - {p})[v] == s[v];
      ClimbAvoids(s, rank, p, s[v].parent, n - 1);
    }
  }

  /** The volumes `p`, its parent, and so on, `n` of them. */
  ghost function Chain(s: Store, p: int, n: nat): set<int>
    decreases n
  {
    if n == 0 then {} else {p} + Chain(s, Climb(s, p, 1), n - 1)
  }

  lemma {:induction false} ChainWithout(s: Store, rank: map<int, nat>, p: int, v: int, n: nat)
    requires Ranks(s, rank) && 0 !in s && p in s && (v in s ==> rank[v] < rank[p])
    ensures Chain(s - {p}, v, n) == Chain(s, v, n)
    decreases n
  {
    if n > 0 {
      ClimbAvoids(s, rank, p, v, 1);
      var q := Climb(s, v, 1);
      assert v in s ==> q == s[v].parent by { assert v in s ==> Climb(s, s[v].parent, 0) == s[v].parent; }
      ChainWithout(s, rank, p, q, n - 1);
    }
  }

  /** Climb(s, p, k) is removed: it is marked and its only child is the one removed just before. */
  ghost predicate Link(s: Store, p: int, from: int, k: nat) {
    var q := Climb(s, p, k);
    q in s && Marked(s[q]) && OnlyChild(s, q, if k == 0 then from else Climb(s, p, k - 1))
  }

  lemma LinkShift(s: Store, rank: map<int, nat>, p: int, from: int, k: nat)
    requires Ranks(s, rank) && Closed(s) && p in s
    ensures Link(s - {p}, s[p].parent, p, k) <==> Link(s, p, from, k + 1)
  {
    var s1, q := s - {p}, s[p].parent;
    ClimbAvoids(s, rank, p, q, k);
    var x := Climb(s, q, k);
    assert Climb(s, p, k + 1) == x;
    if k > 0 {
      ClimbAvoids(s, rank, p, q, k - 1);
      assert Climb(s, p, k) == Climb(s, q, k - 1);
      if q in s {
        ClimbAvoids(s, rank, q, s[q].parent, k - 1);
        assert x != q;
      }
    } else {
      assert Climb(s, p, 0) == p;
    }
    assert forall d :: d in s1 ==> s1[d] == s[d];
    assert forall c :: (x != q || c == p) ==> (OnlyChild(s1, x, c) <==> OnlyChild(s, x, c));
  }

  lemma LeafRemoval(s: Store, p: int)
    requires IsForest(s) && p in s && !HasChildren(s, p)
    ensures IsForest(s - {p})
  {
    var rank :| Ranks(s, rank);
    assert Ranks(s - {p}, rank);
    assert forall v :: v in s - {p} ==> (s - {p})[v] == s[v];
  }

  lemma NoChildBut(s: Store, p: int, from: int)
    requires from !in s
    ensures OnlyChild(s, p, from) <==> !HasChildren(s, p)
  {
  }

  /** A chain above `p`, seen without `p`, is the same chain seen with it. */
  lemma ChainShift(s: Store, p: int, from: int, m: nat)
    requires IsForest(s) && p in s
    requires forall k: nat :: k < m ==> Link(s - {p}, s[p].parent, p, k)
    requires !Link(s - {p}, s[p].parent, p, m)
    ensures forall k: nat :: 1 <= k <= m ==> Link(s, p, from, k)
    ensures !Link(s, p, from, m + 1)
    ensures s - {p} - Chain(s - {p}, s[p].parent, m) == s - Chain(s, p, m + 1)
  {
    var q := s[p].parent;
    var rank :| Ranks(s, rank);
    assert Climb(s, p, 1) == q by { assert Climb(s, q, 0) == q; }
    ChainWithout(s, rank, p, q, m);
    forall k: nat | 1 <= k <= m ensures Link(s, p, from, k) {
      LinkShift(s, rank, p, from, k - 1);
    }
    LinkShift(s, rank, p, from, m);
  }

  /** CollectUp removes a chain of `n` volumes, `p` and upwards: each of them marked and without child but the one
      removed before it; and the next one, if there is one, is not marked or has another child. */
  lemma {:induction false} CollectUpChain(s: Store, p: int, from: int) returns (n: nat)
    requires IsForest(s) && from !in s
    ensures CollectUp(s, p) == s - Chain(s, p, n)
    ensures forall k: nat :: k < n ==> Link(s, p, from, k)
    ensures !Link(s, p, from, n)
    decreases |s|
  {
    assert Climb(s, p, 0) == p;
    NoChildBut(s, p, from);
    if Link(s, p, from, 0) {
      LeafRemoval(s, p);
      var m := CollectUpChain(s - {p}, s[p].parent, p);
      ChainShift(s, p, from, m);
      n := m + 1;
    } else {
      n := 0;
    }
  }

  /** The exact effect of a request for a childless, unlocked volume: it and the maximal chain of ancestors that wait
      for deletion and are left childless go, and every other volume stays as it is. */
  lemma RequestRemovesChain(s: Store, id: int) returns (n: nat)
    requires IsForest(s) && id in s && !s[id].locked && !HasChildren(s, id)
    ensures Request(s, id) == s - Chain(s, id, n + 1)
    ensures forall k: nat :: 1 <= k <= n ==> Link(s, id, 0, k)
    ensures !Link(s, id, 0, n + 1)
  {
    LeafRemoval(s, id);
    n := CollectUpChain(s - {id}, s[id].parent, id);
    ChainShift(s, id, 0, n);
  }
}
