/**
 When deduplication fails: what the passes after the string pass ask of the types they are given.
 */
module DedupErrors {
  import opened Common
  import opened TypeGraph
  import opened CanonicalMap
  import opened BtfTypes
  import opened DedupSpec
  import opened DedupMerge

  // ----- types that can be compared

  /** A type that the equivalence check can compare: `void`, or of any known kind but a variable or a
      data section. */
  predicate Comparable(g: BtfGraph, id: nat)
    requires id < |g|
  {
    var k := Kind(g[id]);
    k != KIND_VAR && k != KIND_DATASEC && (k == KIND_UNKN ==> id == 0)
  }

  /** Types other than data sections refer to comparable ones only. */
  predicate ProperRefs(g: BtfGraph)
    requires WellFormed(g)
  {
    forall i :: 0 <= i < |g| && Kind(g[i]) != KIND_DATASEC ==> ComparableRefs(g, i)
  }

  predicate ComparableRefs(g: BtfGraph, i: nat)
    requires WellFormed(g) && i < |g|
  {
    forall j :: 0 <= j < |g[i].refs| ==> Comparable(g, g[i].refs[j])
  }

  /** A failed check: out of memory, or a type that cannot be compared was referred to. */
  predicate CheckBlamed(g: BtfGraph, memory: bool, r: int)
    requires WellFormed(g)
  {
    r < 0 ==> (r == ENOMEM && !memory) || (r == EINVAL && !ProperRefs(g))
  }

  /** What a canonical type stands for can be compared if it can. */
  lemma {:induction false} TargetComparable(g: BtfGraph, m: seq<nat>, k: nat)
    requires |m| == |g| && Forest(m) && Links(g, m) && k < |g| && Comparable(g, k)
    ensures Comparable(g, FwdTarget(g, m, k))
  {
    ResolveRepresents(g, m, k);
    InfoSplit(g[k].sig.info);
  }

  // ----- references without cycles

  /** References between reference types lower the rank. */
  ghost predicate RanksRefs(g: BtfGraph, rank: seq<nat>) {
    |rank| == |g| && forall i :: 0 <= i < |g| ==> RanksRefsOf(g, rank, i)
  }

  ghost predicate RanksRefsOf(g: BtfGraph, rank: seq<nat>, i: nat)
    requires |rank| == |g| && i < |g|
  {
    IsRefKind(Kind(g[i])) ==>
      forall j :: 0 <= j < |g[i].refs| && g[i].refs[j] < |g| && IsRefKind(Kind(g[g[i].refs[j]])) ==>
        rank[g[i].refs[j]] < rank[i]
  }

  /** No reference types refer to each other in a circle that passes through no struct or union. */
  ghost predicate RefsAcyclic(g: BtfGraph) {
    exists rank: seq<nat> :: RanksRefs(g, rank)
  }

  /** A failed resolution of reference types: out of memory, or a circle. */
  ghost predicate RefBlamed(g: BtfGraph, rank: seq<nat>, memory: bool, r: int) {
    r < 0 ==> (r == ENOMEM && !memory) || (r == ELOOP && !RanksRefs(g, rank))
  }

  /** The types under way are above `id`, if the ranking is one. */
  ghost predicate UnderWayAbove(g: BtfGraph, m: seq<nat>, rank: seq<nat>, id: nat)
    requires |m| == |g| && id < |g|
  {
    RanksRefs(g, rank) && IsRefKind(Kind(g[id])) ==>
      forall p :: 0 <= p < |m| && m[p] == BTF_IN_PROGRESS_ID ==> rank[p] > rank[id]
  }

  /** No more types are under way than before. */
  predicate NoMoreUnderWay(m: seq<nat>, m': seq<nat>) {
    |m| == |m'| && forall p :: 0 <= p < |m| && m'[p] == BTF_IN_PROGRESS_ID ==> m[p] == BTF_IN_PROGRESS_ID
  }

  /** A reference of a type under way is below all that are under way with it. */
  lemma {:induction false} UnderWayBelow(g: BtfGraph, m: seq<nat>, rank: seq<nat>, id: nat, j: nat)
    requires |m| == |g| && id < |g| && IsRefKind(Kind(g[id])) && j < |g[id].refs| && g[id].refs[j] < |g|
    requires m[id] == BTF_IN_PROGRESS_ID && UnderWayAbove(g, m[id := BTF_UNPROCESSED_ID], rank, id)
    ensures UnderWayAbove(g, m, rank, g[id].refs[j])
  {
    if RanksRefs(g, rank) {
      assert RanksRefsOf(g, rank, id);
      var m0 := m[id := BTF_UNPROCESSED_ID];
      forall p | 0 <= p < |m| && m[p] == BTF_IN_PROGRESS_ID ensures rank[p] >= rank[id] {
        if p != id { assert m0[p] == BTF_IN_PROGRESS_ID; }
      }
    }
  }

  /** The state of the reference pass: only reference types are left to map, those not looked at have
      their original references, and the references of the mapped ones lead to mapped ones on no
      circle. */
  ghost predicate RefState(origin: BtfGraph, g: BtfGraph, m: seq<nat>) {
    && |origin| == |g| == |m|
    && (forall k :: 0 <= k < |g| ==> g[k].sig == origin[k].sig)
    && (forall k :: 0 <= k < |g| && !IsMapped(m, k) ==> IsRefKind(Kind(g[k])))
    && (forall k :: 0 <= k < |g| && k in Pending(m) ==> g[k] == origin[k])
    && MappedAcyclic(origin, m)
  }

  ghost predicate MappedAcyclic(g: BtfGraph, m: seq<nat>)
    requires |m| == |g|
  {
    exists rank: seq<nat> :: RanksMapped(g, m, rank)
  }

  ghost predicate RanksMapped(g: BtfGraph, m: seq<nat>, rank: seq<nat>)
    requires |m| == |g|
  {
    |rank| == |g| && forall i :: 0 <= i < |g| ==> RanksMappedOf(g, m, rank, i)
  }

  ghost predicate RanksMappedOf(g: BtfGraph, m: seq<nat>, rank: seq<nat>, i: nat)
    requires |rank| == |g| == |m| && i < |g|
  {
    IsRefKind(Kind(g[i])) && IsMapped(m, i) ==>
      forall j :: 0 <= j < |g[i].refs| ==>
        g[i].refs[j] < |g| && IsMapped(m, g[i].refs[j])
        && (IsRefKind(Kind(g[g[i].refs[j]])) ==> rank[g[i].refs[j]] < rank[i])
  }

  /** The first `n` references of a type are mapped. */
  ghost predicate OperandsMapped(g: BtfGraph, m: seq<nat>, x: nat, n: nat) {
    && |m| == |g| && x < |g| && n <= |g[x].refs|
    && forall j :: 0 <= j < n ==> g[x].refs[j] < |m| && IsMapped(m, g[x].refs[j])
  }

  lemma {:induction false} RefStateStart(g: BtfGraph, m: seq<nat>)
    requires |m| == |g| && forall k :: 0 <= k < |g| ==> (IsMapped(m, k) <==> !IsRefKind(Kind(g[k])))
    ensures RefState(g, g, m)
  {
    var rank := seq(|g|, i => 0);
    forall i | 0 <= i < |g| ensures RanksMappedOf(g, m, rank, i) {}
    assert RanksMapped(g, m, rank);
  }

  /** Marking a type as under way, or rewriting references of one that is. */
  lemma {:induction false} RefStateFrame(origin: BtfGraph, g: BtfGraph, m: seq<nat>, g': BtfGraph, m': seq<nat>)
    requires RefState(origin, g, m) && |g'| == |m'| == |g| && forall k :: 0 <= k < |g| ==> g'[k].sig == g[k].sig
    requires forall k :: 0 <= k < |m| ==> (IsMapped(m', k) <==> IsMapped(m, k))
    requires Pending(m') <= Pending(m) && forall k :: k in Pending(m') ==> g'[k] == g[k]
    ensures RefState(origin, g', m')
  {
    MappedAcyclicFrame(origin, m, m');
  }

  lemma {:induction false} MappedAcyclicFrame(g: BtfGraph, m: seq<nat>, m': seq<nat>)
    requires |m| == |m'| == |g| && MappedAcyclic(g, m)
    requires forall k :: 0 <= k < |m| ==> (IsMapped(m', k) <==> IsMapped(m, k))
    ensures MappedAcyclic(g, m')
  {
    var rank: seq<nat> :| RanksMapped(g, m, rank);
    forall i | 0 <= i < |g| ensures RanksMappedOf(g, m', rank, i) { assert RanksMappedOf(g, m, rank, i); }
    assert RanksMapped(g, m', rank);
  }

  /** Mapping a type whose references are all mapped. */
  lemma {:induction false} RefStateAdd(origin: BtfGraph, g: BtfGraph, m: seq<nat>, x: nat, v: nat)
    requires RefState(origin, g, m) && x < |g| && !IsMapped(m, x) && v <= BTF_MAX_NR_TYPES
    requires OperandsMapped(origin, m, x, |origin[x].refs|)
    ensures RefState(origin, g, m[x := v])
  {
    var m' := m[x := v];
    var rank: seq<nat> :| RanksMapped(origin, m, rank);
    var top := Above(rank, |rank|);
    var rank' := rank[x := top];
    forall i | 0 <= i < |g| ensures RanksMappedOf(origin, m', rank', i) {
      assert RanksMappedOf(origin, m, rank, i);
    }
    assert RanksMapped(origin, m', rank');
  }

  /** A number above the first `n` ranks. */
  ghost function Above(rank: seq<nat>, n: nat): (a: nat)
    requires n <= |rank|
    ensures forall i :: 0 <= i < n ==> rank[i] < a
  {
    if n == 0 then 0
    else
      var a := Above(rank, n - 1);
      if rank[n - 1] < a then a else rank[n - 1] + 1
  }

  /** Once every type is mapped there is no circle. */
  lemma {:induction false} AllMappedAcyclic(origin: BtfGraph, g: BtfGraph, m: seq<nat>)
    requires RefState(origin, g, m) && forall k :: 0 <= k < |m| ==> IsMapped(m, k)
    ensures RefsAcyclic(origin)
  {
    var rank: seq<nat> :| RanksMapped(origin, m, rank);
    forall i | 0 <= i < |origin| ensures RanksRefsOf(origin, rank, i) { assert RanksMappedOf(origin, m, rank, i); }
    assert RanksRefs(origin, rank);
  }

  // ----- the size of the candidate table

  ghost function MappedIds(m: seq<nat>): set<nat> {
    set i: nat | 0 <= i < |m| && IsMapped(m, i)
  }

  lemma {:induction false} SubsetSize(a: set<nat>, b: set<nat>)
    requires a <= b
    ensures |a| <= |b|
    decreases |a|
  {
    if a != {} {
      var x :| x in a;
      SubsetSize(a - {x}, b - {x});
    }
  }

  lemma {:induction false} MappedGrows(m: seq<nat>, m': seq<nat>)
    requires |m| == |m'| && forall i :: 0 <= i < |m| && IsMapped(m, i) ==> IsMapped(m', i)
    ensures |MappedIds(m)| <= |MappedIds(m')|
    ensures forall x :: 0 <= x < |m| && !IsMapped(m, x) && IsMapped(m', x) ==> |MappedIds(m)| < |MappedIds(m')|
  {
    SubsetSize(MappedIds(m), MappedIds(m'));
    forall x: nat | x < |m| && !IsMapped(m, x) && IsMapped(m', x) ensures |MappedIds(m)| < |MappedIds(m')| {
      SubsetSize(MappedIds(m), MappedIds(m') - {x});
    }
  }

  lemma {:induction false} MappedAtMost(m: seq<nat>)
    ensures |MappedIds(m)| <= |m|
  {
    SubsetSize(MappedIds(m), Below(|m|));
  }

  /** The numbers below `n`. */
  ghost function Below(n: nat): (s: set<nat>)
    ensures |s| == n && forall i: nat :: i < n <==> i in s
  {
    if n == 0 then {} else Below(n - 1) + {n - 1}
  }
}
