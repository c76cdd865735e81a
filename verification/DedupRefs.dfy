/**
 What the reference pass makes of references: each becomes the root of the type it led to, and types
 that get one representative have the same references afterwards.
 */
module DedupRefs {
  import opened TypeGraph
  import opened CanonicalMap
  import opened BtfTypes

  /** `a` is mapped and its links end at `b`. */
  ghost predicate LeadsTo(m: seq<nat>, a: nat, b: nat) {
    Forest(m) && a < |m| && IsMapped(m, a) && Resolve(m, a) == b
  }

  /** The first `n` references of `x` are the roots of those it came with. */
  ghost predicate RootedUpTo(origin: BtfGraph, g: BtfGraph, m: seq<nat>, x: nat, n: nat) {
    && |origin| == |g| && x < |g| && |g[x].refs| == |origin[x].refs| && n <= |g[x].refs|
    && forall j :: 0 <= j < n ==> LeadsTo(m, origin[x].refs[j], g[x].refs[j])
  }

  /** A mapped reference type refers to roots, and equals its representative. */
  ghost predicate Rooted(origin: BtfGraph, g: BtfGraph, m: seq<nat>, k: nat)
    requires |m| == |g| && k < |g|
  {
    IsRefKind(Kind(g[k])) && IsMapped(m, k) ==>
      RootedUpTo(origin, g, m, k, |g[k].refs|) && m[k] < |g| && m[m[k]] == m[k] && g[m[k]] == g[k]
  }

  ghost predicate RefsRooted(origin: BtfGraph, g: BtfGraph, m: seq<nat>) {
    |m| == |g| && forall k :: 0 <= k < |g| ==> Rooted(origin, g, m, k)
  }

  /** What leads to a root goes on to do so when other ids are mapped. */
  lemma {:induction false} RootStays(m: seq<nat>, m': seq<nat>, a: nat, b: nat)
    requires LeadsTo(m, a, b) && TargetsMapped(m) && Forest(m') && |m'| == |m|
    requires forall k :: 0 <= k < |m| && IsMapped(m, k) ==> m'[k] == m[k]
    ensures LeadsTo(m', a, b)
  {
    ResolveKept(m, m', a);
  }

  lemma {:induction false} RootsGoOn(origin: BtfGraph, g: BtfGraph, m: seq<nat>, m': seq<nat>, x: nat, n: nat)
    requires RootedUpTo(origin, g, m, x, n) && TargetsMapped(m) && Forest(m') && |m'| == |m|
    requires forall k :: 0 <= k < |m| && IsMapped(m, k) ==> m'[k] == m[k]
    ensures RootedUpTo(origin, g, m', x, n)
  {
    forall j | 0 <= j < n ensures LeadsTo(m', origin[x].refs[j], g[x].refs[j]) {
      RootStays(m, m', origin[x].refs[j], g[x].refs[j]);
    }
  }

  lemma {:induction false} RefsRootedStart(g: BtfGraph, m: seq<nat>)
    requires |m| == |g| && forall k :: 0 <= k < |g| && IsRefKind(Kind(g[k])) ==> !IsMapped(m, k)
    ensures RefsRooted(g, g, m)
  {
  }

  /** Marking a type as under way, or rewriting references of one that is. */
  lemma {:induction false} RefsRootedFrame(origin: BtfGraph, g: BtfGraph, m: seq<nat>, g': BtfGraph, m': seq<nat>)
    requires RefsRooted(origin, g, m) && |g'| == |m'| == |g| && TargetsMapped(m) && Forest(m')
    requires forall k :: 0 <= k < |m| ==> (IsMapped(m', k) <==> IsMapped(m, k))
    requires forall k :: 0 <= k < |m| && IsMapped(m, k) ==> m'[k] == m[k] && g'[k] == g[k]
    ensures RefsRooted(origin, g', m')
  {
    forall k | 0 <= k < |g'| ensures Rooted(origin, g', m', k) {
      assert Rooted(origin, g, m, k);
      if IsRefKind(Kind(g[k])) && IsMapped(m, k) { RootsGoOn(origin, g, m, m', k, |g[k].refs|); }
    }
  }

  /** Recording a representative: the type itself, or one that is equal to it. */
  lemma {:induction false} RefsRootedAdd(origin: BtfGraph, g: BtfGraph, m: seq<nat>, x: nat, v: nat)
    requires RefsRooted(origin, g, m) && TargetsMapped(m) && x < |g| <= BTF_MAX_NR_TYPES + 1 && v < |g|
    requires !IsMapped(m, x) && Forest(m[x := v]) && RootedUpTo(origin, g, m, x, |g[x].refs|)
    requires v != x ==> m[v] == v && g[v] == g[x]
    ensures RefsRooted(origin, g, m[x := v])
  {
    var m' := m[x := v];
    forall k | 0 <= k < |g| ensures Rooted(origin, g, m', k) {
      assert Rooted(origin, g, m, k);
      if k == x {
        RootsGoOn(origin, g, m, m', x, |g[x].refs|);
      } else if IsRefKind(Kind(g[k])) && IsMapped(m, k) {
        RootsGoOn(origin, g, m, m', k, |g[k].refs|);
      }
    }
  }

  /** One reference more, after others may have been mapped. */
  lemma {:induction false} RootedNext(origin: BtfGraph, g: BtfGraph, m: seq<nat>, t: BtfType, m': seq<nat>, x: nat,
                                      n: nat)
    requires RootedUpTo(origin, g, m, x, n) && TargetsMapped(m) && Forest(m') && |m'| == |m| && n < |g[x].refs|
    requires forall k :: 0 <= k < |m| && IsMapped(m, k) ==> m'[k] == m[k]
    requires |t.refs| == |g[x].refs| && LeadsTo(m', origin[x].refs[n], t.refs[n])
    requires forall j :: 0 <= j < n ==> t.refs[j] == g[x].refs[j]
    ensures forall g' :: |g'| == |g| && g'[x] == t ==> RootedUpTo(origin, g', m', x, n + 1)
  {
    RootsGoOn(origin, g, m, m', x, n);
  }

  lemma LinkedRoot(m: seq<nat>, id: nat, r: nat)
    requires Forest(m) && id < |m| <= BTF_MAX_NR_TYPES + 1 && m[id] == r && r < |m| && m[r] == r
    ensures Resolve(m, id) == r
  {
    ResolveStep(m, id);
    ResolveStep(m, r);
  }
}
