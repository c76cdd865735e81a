/**
 The canonical map of BTF deduplication: for each type id either a special
 marker or the id it has been mapped to.  Following links must always end, so
 the map has to be a forest.
 */
module CanonicalMap {

  const BTF_MAX_NR_TYPES: nat := 0x7fff_ffff
  const BTF_UNPROCESSED_ID: nat := 0xffff_ffff
  const BTF_IN_PROGRESS_ID: nat := 0xffff_fffe

  predicate IsMapped(m: seq<nat>, id: nat)
    requires id < |m|
  {
    m[id] <= BTF_MAX_NR_TYPES
  }

  /** `id` has been mapped to some other id. */
  predicate IsLink(m: seq<nat>, id: nat)
    requires id < |m|
  {
    IsMapped(m, id) && m[id] != id
  }

  /** The ids not looked at yet: neither mapped nor under way. */
  ghost function Pending(m: seq<nat>): set<nat> {
    set k: nat | 0 <= k < |m| && m[k] > BTF_MAX_NR_TYPES && m[k] != BTF_IN_PROGRESS_ID
  }

  predicate InRange(m: seq<nat>) {
    forall i :: 0 <= i < |m| && IsMapped(m, i) ==> m[i] < |m|
  }

  /** Each link strictly lowers the rank. */
  ghost predicate Ranks(m: seq<nat>, rank: seq<nat>) {
    && |rank| == |m| && InRange(m)
    && forall i :: 0 <= i < |m| && IsLink(m, i) ==> rank[m[i]] < rank[i]
  }

  ghost predicate Forest(m: seq<nat>) {
    exists rank: seq<nat> :: Ranks(m, rank)
  }

  ghost function ResolveBy(m: seq<nat>, rank: seq<nat>, id: nat): (r: nat)
    requires Ranks(m, rank) && id < |m|
    ensures r < |m| && !IsLink(m, r)
    decreases rank[id]
  {
    if IsLink(m, id) then ResolveBy(m, rank, m[id]) else id
  }

  lemma {:induction false} ResolveByUnique(m: seq<nat>, r1: seq<nat>, r2: seq<nat>, id: nat)
    requires Ranks(m, r1) && Ranks(m, r2) && id < |m|
    ensures ResolveBy(m, r1, id) == ResolveBy(m, r2, id)
    decreases r1[id]
  {
    if IsLink(m, id) { ResolveByUnique(m, r1, r2, m[id]); }
  }

  /** The root reached by following links from `id`. */
  ghost function Resolve(m: seq<nat>, id: nat): (r: nat)
    requires Forest(m) && id < |m|
    ensures r < |m| && !IsLink(m, r)
  {
    var rank: seq<nat> :| Ranks(m, rank);
    ResolveBy(m, rank, id)
  }

  /** The two equations that characterise `Resolve`. */
  lemma ResolveStep(m: seq<nat>, id: nat)
    requires Forest(m) && id < |m|
    ensures IsLink(m, id) ==> m[id] < |m| && Resolve(m, id) == Resolve(m, m[id])
    ensures !IsLink(m, id) ==> Resolve(m, id) == id
  {
    var rank: seq<nat> :| Ranks(m, rank) && Resolve(m, id) == ResolveBy(m, rank, id);
    if IsLink(m, id) {
      var rank': seq<nat> :| Ranks(m, rank') && Resolve(m, m[id]) == ResolveBy(m, rank', m[id]);
      ResolveByUnique(m, rank, rank', m[id]);
    }
  }

  /** `k` link steps from `id`. */
  function Walk(m: seq<nat>, id: nat, k: nat): (r: nat)
    requires InRange(m) && id < |m|
    ensures r < |m|
    decreases k
  {
    if k == 0 || !IsLink(m, id) then id else Walk(m, m[id], k - 1)
  }

  lemma {:induction false} WalkLowersRank(m: seq<nat>, rank: seq<nat>, id: nat, k: nat)
    requires Ranks(m, rank) && id < |m|
    ensures rank[Walk(m, id, k)] <= rank[id]
    decreases k
  {
    if k > 0 && IsLink(m, id) { WalkLowersRank(m, rank, m[id], k - 1); }
  }

  lemma {:induction false} WalkReachesRoot(m: seq<nat>, rank: seq<nat>, id: nat, k: nat)
    requires Ranks(m, rank) && id < |m| && k >= rank[id]
    ensures Walk(m, id, k) == Resolve(m, id)
    decreases k
  {
    assert Forest(m);
    ResolveStep(m, id);
    if k > 0 && IsLink(m, id) { WalkReachesRoot(m, rank, m[id], k - 1); }
  }

  /** In a forest no link reaches back, and walking any id ends at a root that is unmapped or
      mapped to itself. */
  lemma ForestHasNoCycles(m: seq<nat>, id: nat)
    requires Forest(m) && id < |m|
    ensures InRange(m)
    ensures IsLink(m, id) ==> forall k: nat :: Walk(m, m[id], k) != id
    ensures exists k: nat :: Walk(m, id, k) == Resolve(m, id)
    ensures !IsMapped(m, Resolve(m, id)) || m[Resolve(m, id)] == Resolve(m, id)
  {
    var rank: seq<nat> :| Ranks(m, rank);
    if IsLink(m, id) {
      forall k: nat ensures Walk(m, m[id], k) != id {
        WalkLowersRank(m, rank, m[id], k);
      }
    }
    WalkReachesRoot(m, rank, id, rank[id]);
  }

  /** Linking any id to a different root keeps the forest. */
  lemma LinkToRoot(m: seq<nat>, x: nat, y: nat)
    requires Forest(m) && x < |m| && y < |m| && x != y && !IsLink(m, y)
    ensures Forest(m[x := y])
  {
    var rank: seq<nat> :| Ranks(m, rank);
    var rank' := seq(|m|, i requires 0 <= i < |m| => if i == y then 0 else rank[i] + 1);
    var m' := m[x := y];
    forall i | 0 <= i < |m'| && IsLink(m', i) ensures m'[i] < |m'| && rank'[m'[i]] < rank'[i] {
      if i != x { assert IsLink(m, i); }
    }
    assert Ranks(m', rank');
  }

  lemma {:induction false} ResolveLinkedBy(m: seq<nat>, rank: seq<nat>, x: nat, y: nat, a: nat)
    requires Ranks(m, rank) && x < |m| && y < |m| <= BTF_MAX_NR_TYPES + 1 && x != y && !IsLink(m, x) && !IsLink(m, y)
    requires a < |m| && Forest(m[x := y])
    ensures Resolve(m[x := y], a) == if ResolveBy(m, rank, a) == x then y else ResolveBy(m, rank, a)
    decreases rank[a]
  {
    var m' := m[x := y];
    ResolveStep(m', a);
    if a == x {
      ResolveStep(m', y);
    } else if IsLink(m, a) {
      ResolveLinkedBy(m, rank, x, y, m[a]);
    }
  }

  /** Linking a root to another root: what resolved to the one now resolves to the other. */
  lemma {:induction false} ResolveLinked(m: seq<nat>, x: nat, y: nat, a: nat)
    requires Forest(m) && x < |m| && y < |m| <= BTF_MAX_NR_TYPES + 1 && x != y && !IsLink(m, x) && !IsLink(m, y)
    requires a < |m|
    ensures Forest(m[x := y]) && Resolve(m[x := y], a) == if Resolve(m, a) == x then y else Resolve(m, a)
  {
    LinkToRoot(m, x, y);
    var rank: seq<nat> :| Ranks(m, rank) && Resolve(m, a) == ResolveBy(m, rank, a);
    ResolveLinkedBy(m, rank, x, y, a);
  }

  lemma {:induction false} ResolveShortenedBy(m: seq<nat>, rank: seq<nat>, x: nat, a: nat, v: nat)
    requires Ranks(m, rank) && x < |m| <= BTF_MAX_NR_TYPES + 1 && a < |m| && Forest(m[x := v])
    requires ResolveBy(m, rank, x) == v && (v != x || m[x] == x || !IsMapped(m, x))
    ensures Resolve(m[x := v], a) == ResolveBy(m, rank, a)
    decreases rank[a]
  {
    var m' := m[x := v];
    ResolveStep(m', a);
    if a == x {
      if v != x { ResolveStep(m', v); }
    } else if IsLink(m, a) {
      ResolveShortenedBy(m, rank, x, m[a], v);
    }
  }

  /** Pointing an id at its own root changes no resolution. */
  lemma {:induction false} ResolveShortened(m: seq<nat>, x: nat, a: nat)
    requires Forest(m) && x < |m| <= BTF_MAX_NR_TYPES + 1 && a < |m|
    ensures Forest(m[x := Resolve(m, x)]) && Resolve(m[x := Resolve(m, x)], a) == Resolve(m, a)
  {
    var v := Resolve(m, x);
    if v == x {
      ResolveStep(m, x);
      MakeRoot(m, x, x);
    } else {
      LinkToRoot(m, x, v);
    }
    var rank: seq<nat> :| Ranks(m, rank) && Resolve(m, a) == ResolveBy(m, rank, a);
    var rank': seq<nat> :| Ranks(m, rank') && Resolve(m, x) == ResolveBy(m, rank', x);
    ResolveByUnique(m, rank, rank', x);
    ResolveShortenedBy(m, rank, x, a, v);
  }

  /** Linking an id that no link points to keeps the forest. */
  lemma LinkFresh(m: seq<nat>, x: nat, y: nat)
    requires Forest(m) && x < |m| && y < |m| && x != y
    requires forall i :: 0 <= i < |m| && IsLink(m, i) ==> m[i] != x
    ensures Forest(m[x := y])
  {
    var rank: seq<nat> :| Ranks(m, rank);
    var rank' := rank[x := rank[y] + 1];
    var m' := m[x := y];
    forall i | 0 <= i < |m'| && IsLink(m', i) ensures m'[i] < |m'| && rank'[m'[i]] < rank'[i] {
      if i != x { assert IsLink(m, i); }
    }
    assert Ranks(m', rank');
  }

  /** Turning an id into a root (self-mapped or unmapped) keeps the forest. */
  lemma MakeRoot(m: seq<nat>, x: nat, v: nat)
    requires Forest(m) && x < |m| && (v == x || v > BTF_MAX_NR_TYPES)
    ensures Forest(m[x := v])
  {
    var rank: seq<nat> :| Ranks(m, rank);
    var m' := m[x := v];
    forall i | 0 <= i < |m'| && IsLink(m', i) ensures m'[i] < |m'| && rank[m'[i]] < rank[i] {
      assert IsLink(m, i);
    }
    assert Ranks(m', rank);
  }

  /** A map without links is a forest. */
  lemma LinklessForest(m: seq<nat>)
    requires InRange(m) && forall i :: 0 <= i < |m| ==> !IsLink(m, i)
    ensures Forest(m)
  {
    assert Ranks(m, seq(|m|, i => 0));
  }

  /** `resolve_type_id`: follow links to the root. */
  method ResolveTypeId(m: seq<nat>, typeId: nat) returns (r: nat)
    requires Forest(m) && typeId < |m|
    ensures r == Resolve(m, typeId)
  {
    ghost var rank: seq<nat> :| Ranks(m, rank);
    r := typeId;
    ResolveStep(m, r);
    while m[r] <= BTF_MAX_NR_TYPES && m[r] != r
      invariant r < |m| && Resolve(m, r) == Resolve(m, typeId)
      invariant !IsLink(m, r) ==> Resolve(m, r) == r
      decreases rank[r]
    {
      ResolveStep(m, r);
      r := m[r];
      ResolveStep(m, r);
    }
  }

  // ----- links that lead to mapped ids

  /** Every link leads to an id that is mapped itself. */
  ghost predicate TargetsMapped(m: seq<nat>) {
    forall i :: 0 <= i < |m| ==> TargetMapped(m, i)
  }

  predicate TargetMapped(m: seq<nat>, i: nat)
    requires i < |m|
  {
    IsLink(m, i) ==> m[i] < |m| && IsMapped(m, m[i])
  }

  lemma {:induction false} ResolveByMapped(m: seq<nat>, rank: seq<nat>, id: nat)
    requires TargetsMapped(m) && Ranks(m, rank) && id < |m| && IsMapped(m, id)
    ensures m[ResolveBy(m, rank, id)] == ResolveBy(m, rank, id)
    decreases rank[id]
  {
    if IsLink(m, id) {
      assert TargetMapped(m, id);
      ResolveByMapped(m, rank, m[id]);
    }
  }

  /** A mapped id resolves to a canonical one. */
  lemma ResolveMapped(m: seq<nat>, id: nat)
    requires TargetsMapped(m) && Forest(m) && id < |m| && IsMapped(m, id)
    ensures m[Resolve(m, id)] == Resolve(m, id)
  {
    var rank: seq<nat> :| Ranks(m, rank) && Resolve(m, id) == ResolveBy(m, rank, id);
    ResolveByMapped(m, rank, id);
  }

  /** Mapping an id, or marking one that is not mapped, leaves links leading to mapped ids. */
  lemma TargetsStayMapped(m: seq<nat>, x: nat, v: nat)
    requires TargetsMapped(m) && x < |m| <= BTF_MAX_NR_TYPES + 1 && !IsMapped(m, x)
    requires v <= BTF_MAX_NR_TYPES ==> v < |m| && (v == x || m[v] == v)
    ensures TargetsMapped(m[x := v])
  {
    var m' := m[x := v];
    forall i | 0 <= i < |m'| ensures TargetMapped(m', i) { assert TargetMapped(m, i); }
  }

  /** Mapped ids keep their root when others are mapped. */
  lemma {:induction false} ResolveKeptBy(m: seq<nat>, rank: seq<nat>, r: seq<nat>, a: nat)
    requires Ranks(m, rank) && TargetsMapped(m) && Forest(r) && |r| == |m| && a < |m| && IsMapped(m, a)
    requires forall k :: 0 <= k < |m| && IsMapped(m, k) ==> r[k] == m[k]
    ensures Resolve(r, a) == ResolveBy(m, rank, a) && IsMapped(m, ResolveBy(m, rank, a))
    decreases rank[a]
  {
    ResolveStep(r, a);
    if IsLink(m, a) {
      assert TargetMapped(m, a);
      ResolveKeptBy(m, rank, r, m[a]);
    }
  }

  lemma {:induction false} ResolveKept(m: seq<nat>, r: seq<nat>, a: nat)
    requires Forest(m) && TargetsMapped(m) && Forest(r) && |r| == |m| && a < |m| && IsMapped(m, a)
    requires forall k :: 0 <= k < |m| && IsMapped(m, k) ==> r[k] == m[k]
    ensures Resolve(r, a) == Resolve(m, a) && IsMapped(m, Resolve(m, a))
  {
    var rank: seq<nat> :| Ranks(m, rank) && Resolve(m, a) == ResolveBy(m, rank, a);
    ResolveKeptBy(m, rank, r, a);
  }
}
