/**
 What the passes of BTF deduplication have to keep, as facts about values: the
 meaning recorded by the canonical map, and the hypothetical map that the graph
 equivalence check fills in.
 */
module DedupSpec {
  import opened TypeGraph
  import opened CanonicalMap
  import opened BtfTypes

  /** A parsed BTF section: id 0 is `void`, references are in range, layouts match the kinds. */
  ghost predicate GraphOk(g: BtfGraph) {
    1 <= |g| <= BTF_MAX_NR_TYPES + 1 && WellFormed(g) && Layouts(g) && Kind(g[0]) == KIND_UNKN
  }

  /** Every mapped id means the same as the id it is mapped to. */
  ghost predicate SoundMap(g: BtfGraph, m: seq<nat>)
    requires WellFormed(g)
  {
    |m| == |g| && InRange(m) && forall i :: 0 <= i < |m| && IsMapped(m, i) ==> Same(g, i, g, m[i])
  }

  lemma SoundLink(g: BtfGraph, m: seq<nat>, x: nat, v: nat)
    requires WellFormed(g) && SoundMap(g, m) && x < |m|
    requires v > BTF_MAX_NR_TYPES || (v < |g| && Same(g, x, g, v))
    ensures SoundMap(g, m[x := v])
  {
    var m' := m[x := v];
    forall i | 0 <= i < |m'| && IsMapped(m', i) ensures m'[i] < |g| && Same(g, i, g, m'[i]) {
      if i != x { assert IsMapped(m, i); }
    }
  }

  lemma {:induction false} SoundResolveBy(g: BtfGraph, m: seq<nat>, rank: seq<nat>, id: nat)
    requires WellFormed(g) && SoundMap(g, m) && Ranks(m, rank) && id < |m|
    ensures Same(g, id, g, ResolveBy(m, rank, id))
    decreases rank[id]
  {
    if IsLink(m, id) {
      SoundResolveBy(g, m, rank, m[id]);
      assert IsMapped(m, id);
      SameTrans(g, id, g, m[id], g, ResolveBy(m, rank, m[id]));
    }
  }

  /** Resolving an id does not change its meaning. */
  lemma SoundResolve(g: BtfGraph, m: seq<nat>, id: nat)
    requires WellFormed(g) && SoundMap(g, m) && Forest(m) && id < |m|
    ensures Same(g, id, g, Resolve(m, id))
  {
    var rank: seq<nat> :| Ranks(m, rank) && Resolve(m, id) == ResolveBy(m, rank, id);
    SoundResolveBy(g, m, rank, id);
  }

  /** Ids that mean the same in `g` still do in a graph with the meanings of `g`. */
  lemma SameIn(g: BtfGraph, h: BtfGraph, a: nat, b: nat)
    requires SameGraph(g, h) && a < |g| && b < |g|
    ensures Same(g, a, g, b) <==> Same(h, a, h, b)
  {
    assert Same(g, a, h, a) && Same(g, b, h, b);
    if Same(g, a, g, b) {
      forall n: nat ensures Unfold(h, a, n) == Unfold(h, b, n) {
        assert Unfold(g, a, n) == Unfold(h, a, n) && Unfold(g, b, n) == Unfold(h, b, n);
        assert Unfold(g, a, n) == Unfold(g, b, n);
      }
    }
    if Same(h, a, h, b) {
      forall n: nat ensures Unfold(g, a, n) == Unfold(g, b, n) {
        assert Unfold(g, a, n) == Unfold(h, a, n) && Unfold(g, b, n) == Unfold(h, b, n);
        assert Unfold(h, a, n) == Unfold(h, b, n);
      }
    }
  }

  lemma SoundTransfer(g: BtfGraph, h: BtfGraph, m: seq<nat>)
    requires SameGraph(g, h) && SoundMap(g, m)
    ensures SoundMap(h, m)
  {
    forall i | 0 <= i < |m| && IsMapped(m, i) ensures Same(h, i, h, m[i]) {
      SameIn(g, h, i, m[i]);
    }
  }

  // ----- the hypothetical map

  /** `resolve_fwd_id`: a forward already resolved to a struct or union stands for it. */
  ghost function FwdTarget(g: BtfGraph, m: seq<nat>, k: nat): (r: nat)
    requires |m| == |g| && Forest(m) && k < |g|
    ensures r < |g|
  {
    if IsFwd(g[k]) && !IsFwd(g[Resolve(m, k)]) then Resolve(m, k) else k
  }

  /** Candidate `c` and canonical `k` are settled: they resolve to one id, or the pair is recorded. */
  ghost predicate Settled(g: BtfGraph, m: seq<nat>, hyp: seq<nat>, c: nat, k: nat)
    requires |m| == |g| == |hyp| && Forest(m)
  {
    && c < |g| && k < |g|
    && (Resolve(m, c) == Resolve(m, k) || hyp[FwdTarget(g, m, k)] == c)
  }

  /** A forward and the struct or union it can stand for. */
  predicate FwdMatches(t1: BtfType, t2: BtfType) {
    t1.sig.name == t2.sig.name && Kind(t1) != Kind(t2) &&
    if IsFwd(t1) then FwdKind(t1) == Kind(t2) else IsFwd(t2) && FwdKind(t2) == Kind(t1)
  }

  /** `s` is the forward declaration of `t`: of a struct, a union or an enum. */
  ghost predicate StandsFor<N>(s: Signature<N>, t: Signature<N>) {
    && s.name == t.name
    && (|| (InfoKind(s.info) == KIND_FWD
            && InfoKind(t.info) == if InfoKflag(s.info) then KIND_UNION else KIND_STRUCT)
        || (InfoKind(s.info) == KIND_ENUM && InfoVlen(s.info) == 0 && InfoVlen(t.info) != 0
            && s.size == t.size && InfoHigh(s.info) == InfoHigh(t.info)))
  }

  /** No type is the forward declaration of another. */
  ghost predicate NothingToResolve<N>(g: Graph<Signature<N>>) {
    forall i, j :: 0 <= i < |g| && 0 <= j < |g| ==> Unrelated(g, i, j)
  }

  ghost predicate Unrelated<N>(g: Graph<Signature<N>>, i: nat, j: nat)
    requires i < |g| && j < |g|
  {
    !StandsFor(g[i].sig, g[j].sig)
  }

  /** Forwards are not resolved, or there are none to resolve. */
  ghost predicate Exact<N>(dontResolve: bool, g: Graph<Signature<N>>) {
    dontResolve || NothingToResolve(g)
  }

  /** Candidate and canonical descriptors are compatible, type ids aside. */
  ghost predicate LocallyCompatible(tc: BtfType, tk: BtfType, dontResolve: bool)
    requires Layout(tc) && Layout(tk)
  {
    || (tc.sig == tk.sig && (IsFwd(tc) ==> tc == tk))
    || (!dontResolve && IsEnum(tc) && IsEnum(tk) && CompatEnum(tc, tk))
    || (!dontResolve && FwdMatches(tc, tk))
  }

  /** With nothing to resolve, resolving forwards makes no difference. */
  lemma {:induction false} NothingMatches(g: BtfGraph, a: nat, b: nat)
    requires Layouts(g) && NothingToResolve(g) && a < |g| && b < |g|
    ensures !FwdMatches(g[a], g[b])
    ensures IsEnum(g[a]) && IsEnum(g[b]) && CompatEnum(g[a], g[b]) ==> g[a] == g[b]
    ensures LocallyCompatible(g[a], g[b], false) <==> LocallyCompatible(g[a], g[b], true)
  {
    assert Unrelated(g, a, b) && Unrelated(g, b, a);
    if IsEnum(g[a]) && IsEnum(g[b]) && CompatEnum(g[a], g[b]) { CompatEnumMeans(g[a], g[b]); }
  }

  /** The recorded pair of `k` is compatible and, when the descriptors have the same signature,
      every pair of children is settled. */
  ghost predicate PairClosed(g: BtfGraph, m: seq<nat>, hyp: seq<nat>, k: nat, dontResolve: bool)
    requires |m| == |g| == |hyp| && Forest(m) && Layouts(g) && k < |g|
  {
    && hyp[k] < |g|
    && LocallyCompatible(g[hyp[k]], g[k], dontResolve)
    && (g[hyp[k]].sig == g[k].sig ==>
          forall j :: 0 <= j < |g[k].refs| && j < |g[hyp[k]].refs| ==>
            Settled(g, m, hyp, g[hyp[k]].refs[j], g[k].refs[j]))
  }

  /** Every recorded pair is closed, except those still being expanded. */
  ghost predicate ClosedExcept(g: BtfGraph, m: seq<nat>, hyp: seq<nat>, open: set<nat>, dontResolve: bool)
    requires |m| == |g| == |hyp| && Forest(m) && Layouts(g)
  {
    forall k {:trigger PairClosed(g, m, hyp, k, dontResolve)} ::
      0 <= k < |hyp| && hyp[k] <= BTF_MAX_NR_TYPES && k !in open ==> PairClosed(g, m, hyp, k, dontResolve)
  }

  /** `hyp'` records everything `hyp` records. */
  ghost predicate Extends(hyp: seq<nat>, hyp': seq<nat>) {
    |hyp'| == |hyp| && forall k :: 0 <= k < |hyp| && hyp[k] <= BTF_MAX_NR_TYPES ==> hyp'[k] == hyp[k]
  }

  lemma SettledExtends(g: BtfGraph, m: seq<nat>, hyp: seq<nat>, hyp': seq<nat>, c: nat, k: nat)
    requires |m| == |g| == |hyp| && |g| <= BTF_MAX_NR_TYPES + 1 && Forest(m) && Extends(hyp, hyp')
    requires Settled(g, m, hyp, c, k)
    ensures Settled(g, m, hyp', c, k)
  {
  }

  lemma PairClosedExtends(g: BtfGraph, m: seq<nat>, hyp: seq<nat>, hyp': seq<nat>, k: nat, dontResolve: bool)
    requires |m| == |g| == |hyp| && |g| <= BTF_MAX_NR_TYPES + 1 && Forest(m) && Layouts(g) && Extends(hyp, hyp')
    requires k < |g| && PairClosed(g, m, hyp, k, dontResolve)
    ensures PairClosed(g, m, hyp', k, dontResolve)
  {
    if g[hyp[k]].sig == g[k].sig {
      forall j | 0 <= j < |g[k].refs| && j < |g[hyp[k]].refs|
        ensures Settled(g, m, hyp', g[hyp'[k]].refs[j], g[k].refs[j])
      {
        SettledExtends(g, m, hyp, hyp', g[hyp[k]].refs[j], g[k].refs[j]);
      }
    }
  }

  /** Without forward resolution a forward only ever resolves to a forward. */
  lemma FwdTargetStays(g: BtfGraph, m: seq<nat>, k: nat)
    requires WellFormed(g) && SoundMap(g, m) && Forest(m) && k < |g|
    ensures FwdTarget(g, m, k) == k
  {
    SoundResolve(g, m, k);
    SameLabel(g, k, g, Resolve(m, k));
  }

  /** The recorded pairs as a finite map from canonical to candidate ids. */
  ghost function Pairs(hyp: seq<nat>): map<nat, nat> {
    map k: nat | 0 <= k < |hyp| && hyp[k] <= BTF_MAX_NR_TYPES :: hyp[k]
  }

  lemma {:induction false} ClosedIsBisimulation(g: BtfGraph, m: seq<nat>, hyp: seq<nat>)
    requires GraphOk(g) && SoundMap(g, m) && Forest(m) && |hyp| == |g|
    requires ClosedExcept(g, m, hyp, {}, true)
    ensures Bisimulation(g, Pairs(hyp))
  {
    var pairs := Pairs(hyp);
    forall k | k in pairs ensures PairMatches(g, pairs, k) {
      assert PairClosed(g, m, hyp, k, true);
      var c := hyp[k];
      assert Layout(g[k]) && Layout(g[c]);
      forall j | 0 <= j < |g[k].refs| ensures Matched(g, pairs, g[k].refs[j], g[c].refs[j]) {
        assert Settled(g, m, hyp, g[c].refs[j], g[k].refs[j]);
        SettledMatched(g, m, hyp, g[c].refs[j], g[k].refs[j]);
      }
    }
  }

  lemma {:induction false} SettledMatched(g: BtfGraph, m: seq<nat>, hyp: seq<nat>, c: nat, k: nat)
    requires GraphOk(g) && SoundMap(g, m) && Forest(m) && |hyp| == |g|
    requires Settled(g, m, hyp, c, k)
    ensures Matched(g, Pairs(hyp), k, c)
  {
    if Resolve(m, c) == Resolve(m, k) {
      SoundResolve(g, m, c);
      SoundResolve(g, m, k);
      var r := Resolve(m, c);
      forall n: nat ensures Unfold(g, k, n) == Unfold(g, c, n) {
        assert Unfold(g, k, n) == Unfold(g, r, n) && Unfold(g, c, n) == Unfold(g, r, n);
      }
    } else {
      FwdTargetStays(g, m, k);
    }
  }

  /** The point of the equivalence check: the pairs of a closed hypothetical map mean the same. */
  lemma {:induction false} ClosedMapSound(g: BtfGraph, m: seq<nat>, hyp: seq<nat>)
    requires GraphOk(g) && SoundMap(g, m) && Forest(m) && |hyp| == |g|
    requires ClosedExcept(g, m, hyp, {}, true)
    ensures forall k :: 0 <= k < |hyp| && hyp[k] <= BTF_MAX_NR_TYPES ==> hyp[k] < |g| && Same(g, k, g, hyp[k])
  {
    ClosedIsBisimulation(g, m, hyp);
    BisimulationSound(g, Pairs(hyp));
    forall k | 0 <= k < |hyp| && hyp[k] <= BTF_MAX_NR_TYPES ensures hyp[k] < |g| && Same(g, k, g, hyp[k]) {
      assert k in Pairs(hyp);
    }
  }

  // ----- what a refusal of the equivalence check means

  /** `want` is a closed hypothetical map that records everything `hyp` records. */
  ghost predicate Agrees(g: BtfGraph, m: seq<nat>, hyp: seq<nat>, want: seq<nat>, dontResolve: bool)
    requires |m| == |g| == |hyp| && Forest(m) && Layouts(g)
  {
    |want| == |g| && Extends(hyp, want) && ClosedExcept(g, m, want, {}, dontResolve)
  }

  /** The answer `r` is complete: if some closed map that extends `hyp` settles the pair, the answer
      is not 0, and a positive answer recorded in `hyp'` only what such a map records. */
  ghost predicate Complete(g: BtfGraph, m: seq<nat>, hyp: seq<nat>, hyp': seq<nat>, c: nat, k: nat, dontResolve: bool,
                           r: int)
    requires |m| == |g| == |hyp| == |hyp'| && Forest(m) && Layouts(g)
  {
    forall want :: Agrees(g, m, hyp, want, dontResolve) && Settled(g, m, want, c, k) ==>
      r != 0 && (r > 0 ==> Extends(hyp', want))
  }

  /** The first `n` pairs of a list are settled. */
  ghost predicate SettledUpTo(g: BtfGraph, m: seq<nat>, hyp: seq<nat>, cs: seq<nat>, ks: seq<nat>, n: nat)
    requires |m| == |g| == |hyp| && Forest(m) && n <= |cs| == |ks|
  {
    forall j :: 0 <= j < n ==> Settled(g, m, hyp, cs[j], ks[j])
  }

  ghost predicate AllSettled(g: BtfGraph, m: seq<nat>, hyp: seq<nat>, cs: seq<nat>, ks: seq<nat>)
    requires |m| == |g| == |hyp| && Forest(m) && |cs| == |ks|
  {
    SettledUpTo(g, m, hyp, cs, ks, |cs|)
  }

  lemma SettledNext(g: BtfGraph, m: seq<nat>, hyp: seq<nat>, hyp': seq<nat>, cs: seq<nat>, ks: seq<nat>, n: nat)
    requires |m| == |g| == |hyp| && |g| <= BTF_MAX_NR_TYPES + 1 && Forest(m) && n < |cs| == |ks| && Extends(hyp, hyp')
    requires SettledUpTo(g, m, hyp, cs, ks, n) && Settled(g, m, hyp', cs[n], ks[n])
    ensures SettledUpTo(g, m, hyp', cs, ks, n + 1)
  {
    forall j | 0 <= j < n ensures Settled(g, m, hyp', cs[j], ks[j]) {
      SettledExtends(g, m, hyp, hyp', cs[j], ks[j]);
    }
  }

  /** The same for a list of pairs. */
  ghost predicate CompleteAll(g: BtfGraph, m: seq<nat>, hyp: seq<nat>, hyp': seq<nat>, cs: seq<nat>, ks: seq<nat>,
                              dontResolve: bool, r: int)
    requires |m| == |g| == |hyp| == |hyp'| && Forest(m) && Layouts(g) && |cs| == |ks|
  {
    forall want :: Agrees(g, m, hyp, want, dontResolve) && AllSettled(g, m, want, cs, ks) ==>
      r != 0 && (r > 0 ==> Extends(hyp', want))
  }

  lemma CompleteByRecord(g: BtfGraph, m: seq<nat>, hyp: seq<nat>, c: nat, k: nat, dontResolve: bool)
    requires |m| == |g| == |hyp| && Forest(m) && Layouts(g) && c < |g| && k < |g| && Resolve(m, c) != Resolve(m, k)
    requires hyp[FwdTarget(g, m, k)] <= BTF_MAX_NR_TYPES
    ensures Complete(g, m, hyp, hyp, c, k, dontResolve, if hyp[FwdTarget(g, m, k)] == c then 1 else 0)
  {
  }

  /** The same for the pairs already recorded in `hyp`. */
  ghost predicate CompleteFrom(g: BtfGraph, m: seq<nat>, hyp: seq<nat>, hyp': seq<nat>, dontResolve: bool, r: int)
    requires |m| == |g| == |hyp| == |hyp'| && Forest(m) && Layouts(g)
  {
    forall want :: Agrees(g, m, hyp, want, dontResolve) ==> r != 0 && (r > 0 ==> Extends(hyp', want))
  }

  /** A recorded pair that is not compatible is in no closed map. */
  lemma CompleteByMismatch(g: BtfGraph, m: seq<nat>, hyp: seq<nat>, hyp': seq<nat>, c: nat, t: nat, dontResolve: bool)
    requires |m| == |g| == |hyp| == |hyp'| && |g| <= BTF_MAX_NR_TYPES + 1 && Forest(m) && Layouts(g)
    requires c < |g| && t < |g| && hyp[t] == c && !LocallyCompatible(g[c], g[t], dontResolve)
    ensures CompleteFrom(g, m, hyp, hyp', dontResolve, 0)
  {
    forall want | |want| == |g| && Extends(hyp, want) ensures !Agrees(g, m, hyp, want, dontResolve) {
      assert want[t] == c && !PairClosed(g, m, want, t, dontResolve);
    }
  }

  /** Completeness for the children gives completeness for the recorded pair. */
  lemma {:induction false} CompleteByChildren(g: BtfGraph, m: seq<nat>, hyp: seq<nat>, hyp': seq<nat>, c: nat, t: nat,
                           cs: seq<nat>, ks: seq<nat>, dontResolve: bool, r: int)
    requires |m| == |g| == |hyp| == |hyp'| && |g| <= BTF_MAX_NR_TYPES + 1 && Forest(m) && Layouts(g)
    requires c < |g| && t < |g| && hyp[t] == c && |cs| == |ks|
    requires forall j :: 0 <= j < |cs| ==> g[c].sig == g[t].sig && IsChildPair(g[c], g[t], cs[j], ks[j])
    requires CompleteAll(g, m, hyp, hyp', cs, ks, dontResolve, r)
    ensures CompleteFrom(g, m, hyp, hyp', dontResolve, r)
  {
    forall want | Agrees(g, m, hyp, want, dontResolve) ensures AllSettled(g, m, want, cs, ks) {
      assert want[t] == c && PairClosed(g, m, want, t, dontResolve);
    }
  }

  /** A pair that does not resolve to one id is settled only by recording it. */
  lemma {:induction false} CompleteByPair(g: BtfGraph, m: seq<nat>, hyp: seq<nat>, hyp': seq<nat>, c: nat, k: nat,
                                          dontResolve: bool, r: int)
    requires |m| == |g| == |hyp| == |hyp'| && |g| <= BTF_MAX_NR_TYPES + 1 && Forest(m) && Layouts(g)
    requires c < |g| && k < |g| && Resolve(m, c) != Resolve(m, k) && hyp[FwdTarget(g, m, k)] > BTF_MAX_NR_TYPES
    requires CompleteFrom(g, m, hyp[FwdTarget(g, m, k) := c], hyp', dontResolve, r)
    ensures Complete(g, m, hyp, hyp', c, k, dontResolve, r)
  {
    var t := FwdTarget(g, m, k);
    forall want | Agrees(g, m, hyp, want, dontResolve) && Settled(g, m, want, c, k)
      ensures r != 0 && (r > 0 ==> Extends(hyp', want))
    {
      assert Agrees(g, m, hyp[t := c], want, dontResolve);
    }
  }

  /** `x` and `y` are references of the two types at the same place. */
  predicate IsChildPair(tc: BtfType, tk: BtfType, x: nat, y: nat) {
    exists j :: 0 <= j < |tc.refs| && j < |tk.refs| && tc.refs[j] == x && tk.refs[j] == y
  }

  /** One more pair of a list. */
  lemma CompleteNext(g: BtfGraph, m: seq<nat>, hyp: seq<nat>, mid: seq<nat>, hyp': seq<nat>, cs: seq<nat>,
                     ks: seq<nat>, i: nat, dontResolve: bool, r: int)
    requires |m| == |g| == |hyp| == |mid| == |hyp'| && Forest(m) && Layouts(g) && |cs| == |ks| && i < |cs|
    requires CompleteAll(g, m, hyp, mid, cs, ks, dontResolve, 1)
    requires Complete(g, m, mid, hyp', cs[i], ks[i], dontResolve, r)
    ensures CompleteAll(g, m, hyp, hyp', cs, ks, dontResolve, r)
  {
    forall want | Agrees(g, m, hyp, want, dontResolve) && AllSettled(g, m, want, cs, ks)
      ensures r != 0 && (r > 0 ==> Extends(hyp', want))
    {
      assert Agrees(g, m, mid, want, dontResolve);
      assert Settled(g, m, want, cs[i], ks[i]);
    }
  }

  /** No closed hypothetical map settles the pair. */
  ghost predicate Unsettleable(g: BtfGraph, m: seq<nat>, c: nat, k: nat, dontResolve: bool)
    requires |m| == |g| && Forest(m) && Layouts(g)
  {
    forall want :: |want| == |g| && ClosedExcept(g, m, want, {}, dontResolve) ==> !Settled(g, m, want, c, k)
  }

  /** A refusal from a cleared map: the pair cannot be settled. */
  lemma RefusalMeans(g: BtfGraph, m: seq<nat>, hyp: seq<nat>, hyp': seq<nat>, c: nat, k: nat, dontResolve: bool)
    requires |m| == |g| == |hyp| == |hyp'| && Forest(m) && Layouts(g)
    requires forall i :: 0 <= i < |hyp| ==> hyp[i] > BTF_MAX_NR_TYPES
    requires Complete(g, m, hyp, hyp', c, k, dontResolve, 0)
    ensures Unsettleable(g, m, c, k, dontResolve)
  {
    forall want | |want| == |g| && ClosedExcept(g, m, want, {}, dontResolve) ensures !Settled(g, m, want, c, k) {
      assert Agrees(g, m, hyp, want, dontResolve);
    }
  }
}
