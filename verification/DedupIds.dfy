/**
 What the ids that types get in the result say about structs and unions, and about the forwards that
 they refer to.
 */
module DedupIds {
  import opened TypeGraph
  import opened CanonicalMap
  import opened BtfTypes
  import opened DedupSpec
  import opened DedupLimits
  import opened DedupMerge
  import opened DedupForwards
  import Passes = BtfDedup

  /** `ids` gives every type of `g` one of `f`. */
  ghost predicate InResult<L>(g: Graph<L>, f: Graph<L>, ids: seq<nat>) {
    |ids| == |g| && forall i :: 0 <= i < |ids| ==> ids[i] < |f|
  }

  ghost function ForwardsOf<N>(g: Graph<Signature<N>>): (r: seq<bool>)
    ensures |r| == |g| && forall i :: 0 <= i < |g| ==> r[i] == (InfoKind(g[i].sig.info) == KIND_FWD)
  {
    seq(|g|, i requires 0 <= i < |g| => InfoKind(g[i].sig.info) == KIND_FWD)
  }

  /** Which types became forwards. */
  ghost function LeftForwards<N>(g: Graph<Signature<N>>, f: Graph<Signature<N>>, ids: seq<nat>): (r: seq<bool>)
    requires InResult(g, f, ids)
    ensures |r| == |g| && forall i :: 0 <= i < |g| ==> r[i] == (InfoKind(f[ids[i]].sig.info) == KIND_FWD)
  {
    seq(|g|, i requires 0 <= i < |g| => InfoKind(f[ids[i]].sig.info) == KIND_FWD)
  }

  /** Where `x` and `y` have a forward and another type side by side, neither became a forward. */
  ghost predicate ForwardsGone<N>(g: Graph<Signature<N>>, f: Graph<Signature<N>>, ids: seq<nat>, x: nat, y: nat)
    requires InResult(g, f, ids)
  {
    ForwardsMet(g, ForwardsOf(g), ids, LeftForwards(g, f, ids), x, y)
  }

  ghost predicate SharesWith<N>(g: Graph<Signature<N>>, f: Graph<Signature<N>>, ids: seq<nat>, x: nat, y: nat)
    requires InResult(g, f, ids) && x < |g| && y < |g|
  {
    y != x && g[y].sig == g[x].sig && ids[y] == ids[x] && ForwardsGone(g, f, ids, x, y)
  }

  ghost predicate HasEqual<N>(g: Graph<Signature<N>>, f: Graph<Signature<N>>, ids: seq<nat>, x: nat)
    requires InResult(g, f, ids) && x < |g|
  {
    HasForward(g, g[x].sig) || exists y: nat :: y < |g| && SharesWith(g, f, ids, x, y)
  }

  /** Of two structs or unions that get one id one has a forward, or gets it together with another of
      its signature, and where those two have a forward and another type side by side, no forward is
      left. */
  ghost predicate ForwardsResolved<N>(g: Graph<Signature<N>>, f: Graph<Signature<N>>, ids: seq<nat>) {
    InResult(g, f, ids) && forall x, z :: 0 <= x < |g| && 0 <= z < |g| ==> SharedAlike(g, f, ids, x, z)
  }

  ghost predicate SharedAlike<N>(g: Graph<Signature<N>>, f: Graph<Signature<N>>, ids: seq<nat>, x: nat, z: nat)
    requires InResult(g, f, ids) && x < |g| && z < |g|
  {
    x != z && Composite(g[x].sig) && Composite(g[z].sig) && ids[x] == ids[z] ==>
      HasEqual(g, f, ids, x) || HasEqual(g, f, ids, z)
  }

  /** A forward enum became an enum it stands for, if there is one. */
  ghost predicate EnumsResolved<N>(g: Graph<Signature<N>>, f: Graph<Signature<N>>, ids: seq<nat>) {
    && InResult(g, f, ids)
    && forall i, j :: 0 <= i < |g| && 0 <= j < |g| ==> EnumResolved(g, f, ids, i, j)
  }

  ghost predicate EnumResolved<N>(g: Graph<Signature<N>>, f: Graph<Signature<N>>, ids: seq<nat>, i: nat, j: nat)
    requires InResult(g, f, ids) && i < |g| && j < |g|
  {
    InfoKind(g[i].sig.info) == KIND_ENUM && StandsFor(g[i].sig, g[j].sig) ==> StandsFor(g[i].sig, f[ids[i]].sig)
  }

  /** The references of what `id` became are what those of `x` became. */
  ghost predicate RefersAs<L>(g: Graph<L>, f: Graph<L>, ids: seq<nat>, id: nat, x: nat)
    requires InResult(g, f, ids) && id < |g| && x < |g|
  {
    && |f[ids[id]].refs| == |g[x].refs|
    && forall j :: 0 <= j < |g[x].refs| ==> g[x].refs[j] < |g| && f[ids[id]].refs[j] == ids[g[x].refs[j]]
  }

  /** What `id` became has the signature and the references of `x`, which got the same id. */
  ghost predicate Represented<L>(g: Graph<L>, f: Graph<L>, ids: seq<nat>, id: nat, x: nat)
    requires InResult(g, f, ids) && id < |g| && x < |g|
  {
    ids[x] == ids[id] && f[ids[id]].sig == g[x].sig && RefersAs(g, f, ids, id, x)
  }

  ghost predicate HasRepresentative<L>(g: Graph<L>, f: Graph<L>, ids: seq<nat>, id: nat)
    requires InResult(g, f, ids) && id < |g|
  {
    exists x: nat :: x < |g| && Represented(g, f, ids, id, x)
  }

  /** Every type of the result is one of those that became it, with its references translated, and
      reference types refer to what the types they referred to became. */
  ghost predicate Pictured<N>(g: Graph<Signature<N>>, f: Graph<Signature<N>>, ids: seq<nat>) {
    && InResult(g, f, ids)
    && forall id :: 0 <= id < |g| ==>
         HasRepresentative(g, f, ids, id) && (IsRefKind(InfoKind(g[id].sig.info)) ==> RefersAs(g, f, ids, id, id))
  }

  /** `m` joins only types of one id. */
  ghost predicate JoinsWithin(m: seq<nat>, ids: seq<nat>) {
    |m| == |ids| && Forest(m) && forall a, b :: 0 <= a < |m| && 0 <= b < |m| && Joined(m, a, b) ==> ids[a] == ids[b]
  }

  /** With no more types joined than share an id, no closed hypothetical map settles `x` with `y`. */
  ghost predicate Refused(g: BtfGraph, ids: seq<nat>, x: nat, y: nat, dontResolve: bool)
    requires Layouts(g) && |ids| == |g| && x < |g| && y < |g|
  {
    exists m :: JoinsWithin(m, ids) && Unsettleable(g, m, x, y, dontResolve)
  }

  ghost predicate RefusedIds(g: BtfGraph, ids: seq<nat>, a: nat, b: nat, dontResolve: bool)
    requires Layouts(g) && |ids| == |g| && a < |g| && b < |g|
  {
    exists x: nat, y: nat ::
      && x < |g| && y < |g| && ids[x] == ids[a] && ids[y] == ids[b]
      && (Refused(g, ids, x, y, dontResolve) || Refused(g, ids, y, x, dontResolve))
  }

  /** Structs and unions of one signature that have no forward get one id, or types of their ids could
      not be settled. */
  ghost predicate StructsCompared(g: BtfGraph, ids: seq<nat>, dontResolve: bool)
    requires Layouts(g)
  {
    |ids| == |g| && forall a, b :: 0 <= a < |g| && 0 <= b < |g| ==> PairCompared(g, ids, a, b, dontResolve)
  }

  ghost predicate PairCompared(g: BtfGraph, ids: seq<nat>, a: nat, b: nat, dontResolve: bool)
    requires Layouts(g) && |ids| == |g| && a < |g| && b < |g|
  {
    IsComposite(g[a]) && g[b].sig == g[a].sig && !HasForward(g, g[a].sig) ==>
      ids[a] == ids[b] || RefusedIds(g, ids, a, b, dontResolve)
  }

  // ----- from the canonical map to ids

  /** The ids that a canonical map gives. */
  ghost predicate IdsOf(m: seq<nat>, ids: seq<nat>) {
    && |m| == |ids| <= BTF_MAX_NR_TYPES + 1 && Forest(m)
    && forall id :: 0 <= id < |m| ==> ids[id] == Passes.FinalId(m, id)
  }

  lemma {:induction false} IdsJoin(m: seq<nat>, ids: seq<nat>, a: nat, b: nat)
    requires IdsOf(m, ids) && Passes.AllMapped(m) && a < |m| && b < |m|
    ensures ids[a] == ids[b] <==> Joined(m, a, b)
  {
    var ra, rb := Resolve(m, a), Resolve(m, b);
    ResolveStep(m, ra);
    ResolveStep(m, rb);
    if ids[a] == ids[b] { Passes.FinalIdInjective(m, ra, rb); }
  }

  lemma {:induction false} MetGone(g: BtfGraph, m: seq<nat>, f: BtfGraph, ids: seq<nat>, x: nat, y: nat)
    requires IdsOf(m, ids) && InResult(g, f, ids) && Passes.FinalSignatures(g, m, f) && Met(g, m, x, y)
    ensures ForwardsGone(g, f, ids, x, y)
  {
    var fwds, left := ForwardsOf(g), LeftForwards(g, f, ids);
    assert fwds == Fwds(g);
    forall c: nat, k: nat | c < |g| && k < |g| && SideBySide(g, fwds, ids, x, y, c, k) && fwds[c] != fwds[k]
      ensures !left[c] && !left[k]
    {
      SideBySideFiner(g, g, fwds, ids, Roots(m), x, y, c, k);
    }
  }

  /** Side by side with fewer types told apart is side by side with more. */
  lemma {:induction false} SideBySideFiner<L, M>(g: Graph<L>, h: Graph<M>, fwds: seq<bool>, rep: seq<nat>,
                                                 finer: seq<nat>, x: nat, y: nat, c: nat, k: nat)
    requires |g| == |h| == |rep| == |finer| && SideBySide(g, fwds, rep, x, y, c, k)
    requires forall i, j :: 0 <= i < |g| && 0 <= j < |g| && finer[i] == finer[j] ==> rep[i] == rep[j]
    requires forall i, j :: 0 <= i < |g| && 0 <= j < |g| && g[i].sig == g[j].sig ==> h[i].sig == h[j].sig
    requires forall i :: 0 <= i < |g| ==> g[i].refs == h[i].refs
    ensures SideBySide(h, fwds, finer, x, y, c, k)
  {
    var walk := WalkTo(g, fwds, rep, x, y, c, k);
    forall i | 0 < i < |walk| ensures BesideStep(h, fwds, finer, walk, i) {
      assert BesideStep(g, fwds, rep, walk, i);
    }
    assert Beside(h, fwds, finer, walk);
  }

  lemma {:induction false} PartnerShares(g: BtfGraph, m: seq<nat>, f: BtfGraph, ids: seq<nat>, x: nat)
    requires IdsOf(m, ids) && InResult(g, f, ids) && Passes.FinalSignatures(g, m, f) && Partnered(g, m)
    requires x < |g| && IsComposite(g[x]) && IsLink(m, x)
    ensures HasEqual(g, f, ids, x)
  {
    assert PartneredAt(g, m, x);
    if !HasForward(g, g[x].sig) {
      var y: nat :| y < |g| && IsPartner(g, m, x, y);
      MetGone(g, m, f, ids, x, y);
      assert SharesWith(g, f, ids, x, y);
    }
  }

  lemma {:induction false} ResolvedFromMap(g: BtfGraph, m: seq<nat>, f: BtfGraph, ids: seq<nat>)
    requires IdsOf(m, ids) && InResult(g, f, ids) && Passes.AllMapped(m) && Passes.FinalSignatures(g, m, f)
    requires Partnered(g, m)
    ensures ForwardsResolved(g, f, ids)
  {
    forall x, z | 0 <= x < |g| && 0 <= z < |g| ensures SharedAlike(g, f, ids, x, z) {
      if x != z && Composite(g[x].sig) && Composite(g[z].sig) && ids[x] == ids[z] {
        SharedFromMap(g, m, f, ids, x, z);
      }
    }
  }

  lemma {:induction false} SharedFromMap(g: BtfGraph, m: seq<nat>, f: BtfGraph, ids: seq<nat>, x: nat, z: nat)
    requires IdsOf(m, ids) && InResult(g, f, ids) && Passes.AllMapped(m) && Passes.FinalSignatures(g, m, f)
    requires Partnered(g, m) && x < |g| && z < |g| && x != z && IsComposite(g[x]) && IsComposite(g[z])
    requires ids[x] == ids[z]
    ensures HasEqual(g, f, ids, x) || HasEqual(g, f, ids, z)
  {
    IdsJoin(m, ids, x, z);
    ResolveStep(m, x);
    ResolveStep(m, z);
    if IsLink(m, x) { PartnerShares(g, m, f, ids, x); } else { PartnerShares(g, m, f, ids, z); }
  }

  lemma {:induction false} PicturedFromMap(g: BtfGraph, m: seq<nat>, f: BtfGraph, ids: seq<nat>)
    requires IdsOf(m, ids) && InResult(g, f, ids) && Passes.AllMapped(m) && |m| == |g|
    requires Passes.FinalSignatures(g, m, f) && Passes.FinalReferences(g, m, f)
    ensures Pictured(g, f, ids)
  {
    forall id | 0 <= id < |g|
      ensures HasRepresentative(g, f, ids, id) && (IsRefKind(Kind(g[id])) ==> RefersAs(g, f, ids, id, id))
    {
      var r := Resolve(m, id);
      ResolveStep(m, r);
      IdsJoin(m, ids, id, r);
      assert Passes.RefersAlike(g, m, f, id, r);
      assert Represented(g, f, ids, id, r);
    }
  }

  /** Types that differ only in how names are spelt are pictured alike. */
  lemma {:induction false} PicturedRelabelled<M, N>(g: Graph<Signature<M>>, f: Graph<Signature<M>>,
                                                    h: Graph<Signature<N>>, k: Graph<Signature<N>>,
                                                    spell: Signature<M> -> Signature<N>, ids: seq<nat>)
    requires Pictured(g, f, ids) && Relabelled(g, h, spell) && Relabelled(f, k, spell)
    requires forall s :: spell(s).info == s.info
    ensures Pictured(h, k, ids)
  {
    forall id | 0 <= id < |h|
      ensures HasRepresentative(h, k, ids, id)
      ensures IsRefKind(InfoKind(h[id].sig.info)) ==> RefersAs(h, k, ids, id, id)
    {
      assert HasRepresentative(g, f, ids, id);
      var x: nat :| x < |g| && Represented(g, f, ids, id, x);
      assert Represented(h, k, ids, id, x);
    }
  }

  lemma {:induction false} EnumsFromMap(g: BtfGraph, m: seq<nat>, f: BtfGraph, ids: seq<nat>)
    requires IdsOf(m, ids) && InResult(g, f, ids) && Passes.FinalSignatures(g, m, f) && Passes.EnumsFollow(g, m)
    ensures EnumsResolved(g, f, ids)
  {
    forall i, j | 0 <= i < |g| && 0 <= j < |g| ensures EnumResolved(g, f, ids, i, j) {
      assert Passes.EnumFollows(g, m, i, j);
    }
  }

  lemma {:induction false} RefusedFromMap(g: BtfGraph, m: seq<nat>, ids: seq<nat>, i: nat, j: nat, dontResolve: bool)
    requires Layouts(g) && IdsOf(m, ids) && Passes.AllMapped(m) && |m| == |g| && i < |g| && j < |g|
    requires WasRefused(g, m, i, j, dontResolve)
    ensures Refused(g, ids, j, i, dontResolve)
  {
    var m0 :| Advances(g, m0, m) && Unsettleable(g, m0, j, i, dontResolve);
    forall a, b | 0 <= a < |m0| && 0 <= b < |m0| && Joined(m0, a, b) ensures ids[a] == ids[b] {
      assert JoinStays(m0, m, a, b);
      IdsJoin(m, ids, a, b);
    }
  }

  lemma {:induction false} ComparedFromMap(g: BtfGraph, m: seq<nat>, ids: seq<nat>, dontResolve: bool)
    requires GraphOk(g) && IdsOf(m, ids) && |m| == |g| && Passes.AllMapped(m)
    requires forall id :: 0 <= id < |g| ==> Represents(g, g[id].sig, g[Resolve(m, id)].sig)
    requires StructsRefused(g, m, |g|, dontResolve)
    ensures StructsCompared(g, ids, dontResolve)
  {
    forall a, b | 0 <= a < |g| && 0 <= b < |g| ensures PairCompared(g, ids, a, b, dontResolve) {
      if IsComposite(g[a]) && g[b].sig == g[a].sig && !HasForward(g, g[a].sig) && ids[a] != ids[b] {
        RootsRefused(g, m, ids, a, b, dontResolve);
      }
    }
  }

  lemma {:induction false} RootsRefused(g: BtfGraph, m: seq<nat>, ids: seq<nat>, a: nat, b: nat, dontResolve: bool)
    requires GraphOk(g) && IdsOf(m, ids) && |m| == |g| && Passes.AllMapped(m) && a < |g| && b < |g|
    requires forall id :: 0 <= id < |g| ==> Represents(g, g[id].sig, g[Resolve(m, id)].sig)
    requires StructsRefused(g, m, |g|, dontResolve)
    requires IsComposite(g[a]) && g[b].sig == g[a].sig && !HasForward(g, g[a].sig) && ids[a] != ids[b]
    ensures RefusedIds(g, ids, a, b, dontResolve)
  {
    var x, y := Resolve(m, a), Resolve(m, b);
    ResolveStep(m, x);
    ResolveStep(m, y);
    IdsJoin(m, ids, a, x);
    IdsJoin(m, ids, b, y);
    assert g[x].sig == g[a].sig == g[y].sig && x != y;
    if x < y {
      assert PairRefused(g, m, x, y, dontResolve);
      RefusedFromMap(g, m, ids, x, y, dontResolve);
    } else {
      assert PairRefused(g, m, y, x, dontResolve);
      RefusedFromMap(g, m, ids, y, x, dontResolve);
    }
  }
}
