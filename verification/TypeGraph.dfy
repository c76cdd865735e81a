/**
 Type graphs and their meaning.

 A type graph is a sequence of descriptors; each descriptor carries a label and
 the ids of the types it refers to.  Graphs may be cyclic.  The meaning of an id
 is the family of its unfoldings to every finite depth: two ids mean the same
 when all their unfoldings are equal.
 */
module TypeGraph {

  datatype Node<L> = Node(sig: L, refs: seq<nat>)

  type Graph<L> = seq<Node<L>>

  /** Every reference stays inside the graph. */
  predicate WellFormed<L>(g: Graph<L>) {
    forall i, j :: 0 <= i < |g| && 0 <= j < |g[i].refs| ==> g[i].refs[j] < |g|
  }

  datatype Tree<L> = Cut | Branch(sig: L, kids: seq<Tree<L>>)

  /** The unfolding of `id` to depth `n`. */
  ghost function Unfold<L>(g: Graph<L>, id: nat, n: nat): (t: Tree<L>)
    requires WellFormed(g) && id < |g|
    decreases n, 0
  {
    if n == 0 then Cut
    else Branch(g[id].sig, UnfoldAll(g, g[id].refs, n - 1))
  }

  ghost function UnfoldAll<L>(g: Graph<L>, ids: seq<nat>, n: nat): (ts: seq<Tree<L>>)
    requires WellFormed(g) && forall i :: 0 <= i < |ids| ==> ids[i] < |g|
    ensures |ts| == |ids|
    decreases n, |ids| + 1
  {
    if ids == [] then [] else [Unfold(g, ids[0], n)] + UnfoldAll(g, ids[1..], n)
  }

  /** `a` in `g` and `b` in `h` mean the same type. */
  ghost predicate Same<L>(g: Graph<L>, a: nat, h: Graph<L>, b: nat)
    requires WellFormed(g) && WellFormed(h) && a < |g| && b < |h|
  {
    forall n: nat :: Unfold(g, a, n) == Unfold(h, b, n)
  }

  lemma SameLabel<L>(g: Graph<L>, a: nat, h: Graph<L>, b: nat)
    requires WellFormed(g) && WellFormed(h) && a < |g| && b < |h|
    requires Same(g, a, h, b)
    ensures g[a].sig == h[b].sig
    ensures |g[a].refs| == |h[b].refs|
  {
    assert Unfold(g, a, 1) == Unfold(h, b, 1);
  }

  lemma {:induction false} UnfoldAllAt<L>(g: Graph<L>, ids: seq<nat>, n: nat, j: nat)
    requires WellFormed(g) && (forall i :: 0 <= i < |ids| ==> ids[i] < |g|) && j < |ids|
    ensures UnfoldAll(g, ids, n)[j] == Unfold(g, ids[j], n)
    decreases j
  {
    if j > 0 { UnfoldAllAt(g, ids[1..], n, j - 1); }
  }

  /** Equal unfoldings have equal labels and, one level down, equal unfoldings of their references. */
  lemma {:induction false} UnfoldInvert<L>(g: Graph<L>, a: nat, h: Graph<L>, b: nat, n: nat)
    requires WellFormed(g) && WellFormed(h) && a < |g| && b < |h| && Unfold(g, a, n + 1) == Unfold(h, b, n + 1)
    ensures g[a].sig == h[b].sig && |g[a].refs| == |h[b].refs|
    ensures forall j :: 0 <= j < |g[a].refs| ==> Unfold(g, g[a].refs[j], n) == Unfold(h, h[b].refs[j], n)
  {
    forall j | 0 <= j < |g[a].refs| ensures Unfold(g, g[a].refs[j], n) == Unfold(h, h[b].refs[j], n) {
      UnfoldAllAt(g, g[a].refs, n, j);
      UnfoldAllAt(h, h[b].refs, n, j);
    }
  }

  /** References at one place of types that mean the same mean the same. */
  lemma {:induction false} SameKids<L>(g: Graph<L>, a: nat, h: Graph<L>, b: nat, j: nat)
    requires WellFormed(g) && WellFormed(h) && a < |g| && b < |h| && Same(g, a, h, b)
    requires j < |g[a].refs| && j < |h[b].refs|
    ensures Same(g, g[a].refs[j], h, h[b].refs[j])
  {
    forall n: nat ensures Unfold(g, g[a].refs[j], n) == Unfold(h, h[b].refs[j], n) {
      assert Unfold(g, a, n + 1) == Unfold(h, b, n + 1);
      UnfoldInvert(g, a, h, b, n);
    }
  }

  lemma {:induction false} UnfoldAllEqual<L>(g: Graph<L>, xs: seq<nat>, h: Graph<L>, ys: seq<nat>, n: nat)
    requires WellFormed(g) && WellFormed(h) && |xs| == |ys|
    requires forall i :: 0 <= i < |xs| ==> xs[i] < |g| && ys[i] < |h|
    requires forall i :: 0 <= i < |xs| ==> Unfold(g, xs[i], n) == Unfold(h, ys[i], n)
    ensures UnfoldAll(g, xs, n) == UnfoldAll(h, ys, n)
    decreases |xs|
  {
    if xs != [] { UnfoldAllEqual(g, xs[1..], h, ys[1..], n); }
  }

  /** One level of unfolding agrees when labels agree and the children agree one level down. */
  lemma UnfoldCongruence<L>(g: Graph<L>, a: nat, h: Graph<L>, b: nat, n: nat)
    requires WellFormed(g) && WellFormed(h) && a < |g| && b < |h|
    requires g[a].sig == h[b].sig && |g[a].refs| == |h[b].refs|
    requires forall j :: 0 <= j < |g[a].refs| ==> Unfold(g, g[a].refs[j], n) == Unfold(h, h[b].refs[j], n)
    ensures Unfold(g, a, n + 1) == Unfold(h, b, n + 1)
  {
    UnfoldAllEqual(g, g[a].refs, h, h[b].refs, n);
  }

  /** Equal descriptors mean the same. */
  lemma EqualNodesSame<L>(g: Graph<L>, a: nat, b: nat)
    requires WellFormed(g) && a < |g| && b < |g| && g[a] == g[b]
    ensures Same(g, a, g, b)
  {
    forall n: nat ensures Unfold(g, a, n) == Unfold(g, b, n) {
      if n > 0 { UnfoldCongruence(g, a, g, b, n - 1); }
    }
  }

  lemma SameTrans<L>(g: Graph<L>, a: nat, h: Graph<L>, b: nat, k: Graph<L>, c: nat)
    requires WellFormed(g) && WellFormed(h) && WellFormed(k) && a < |g| && b < |h| && c < |k|
    requires Same(g, a, h, b) && Same(h, b, k, c)
    ensures Same(g, a, k, c)
  {
    forall n: nat ensures Unfold(g, a, n) == Unfold(k, c, n) {
      assert Unfold(g, a, n) == Unfold(h, b, n);
    }
  }

  /** `pairs` relates each recorded id to one id; a child pair counts as matched when it is
      recorded or already known to mean the same. */
  ghost predicate Matched<L>(g: Graph<L>, pairs: map<nat, nat>, k: nat, c: nat)
    requires WellFormed(g)
  {
    k < |g| && c < |g| && ((k in pairs && pairs[k] == c) || Same(g, k, g, c))
  }

  /** The pair recorded for `k` has equal signatures and matched children. */
  ghost predicate PairMatches<L>(g: Graph<L>, pairs: map<nat, nat>, k: nat)
    requires WellFormed(g) && k in pairs
  {
    && k < |g| && pairs[k] < |g|
    && g[k].sig == g[pairs[k]].sig
    && |g[k].refs| == |g[pairs[k]].refs|
    && forall j :: 0 <= j < |g[k].refs| ==> Matched(g, pairs, g[k].refs[j], g[pairs[k]].refs[j])
  }

  /** A set of recorded pairs closed under taking children, up to pairs that already mean the same. */
  ghost predicate Bisimulation<L>(g: Graph<L>, pairs: map<nat, nat>)
    requires WellFormed(g)
  {
    forall k :: k in pairs ==> PairMatches(g, pairs, k)
  }

  lemma {:induction false} BisimulationToDepth<L>(g: Graph<L>, pairs: map<nat, nat>, k: nat, n: nat)
    requires WellFormed(g) && Bisimulation(g, pairs) && k in pairs
    ensures k < |g| && pairs[k] < |g| && Unfold(g, k, n) == Unfold(g, pairs[k], n)
    decreases n
  {
    assert PairMatches(g, pairs, k);
    if n > 0 {
      var c := pairs[k];
      forall j | 0 <= j < |g[k].refs|
        ensures Unfold(g, g[k].refs[j], n - 1) == Unfold(g, g[c].refs[j], n - 1)
      {
        var kj, cj := g[k].refs[j], g[c].refs[j];
        assert Matched(g, pairs, kj, cj);
        if kj in pairs && pairs[kj] == cj { BisimulationToDepth(g, pairs, kj, n - 1); }
      }
      UnfoldCongruence(g, k, g, c, n - 1);
    }
  }

  /** The coinduction principle: the pairs of a bisimulation mean the same. */
  lemma BisimulationSound<L>(g: Graph<L>, pairs: map<nat, nat>)
    requires WellFormed(g) && Bisimulation(g, pairs)
    ensures forall k :: k in pairs ==> k < |g| && pairs[k] < |g| && Same(g, k, g, pairs[k])
  {
    forall k | k in pairs ensures k < |g| && pairs[k] < |g| && Same(g, k, g, pairs[k]) {
      assert PairMatches(g, pairs, k);
      forall n: nat ensures Unfold(g, k, n) == Unfold(g, pairs[k], n) {
        BisimulationToDepth(g, pairs, k, n);
      }
    }
  }

  /** `h` is `g` with some references replaced by ids that mean the same in `g`. */
  ghost predicate Rewritten<L>(g: Graph<L>, h: Graph<L>)
    requires WellFormed(g) && WellFormed(h)
  {
    && |h| == |g|
    && (forall i :: 0 <= i < |g| ==> h[i].sig == g[i].sig && |h[i].refs| == |g[i].refs|)
    && (forall i, j :: 0 <= i < |g| && 0 <= j < |g[i].refs| ==> Same(g, g[i].refs[j], g, h[i].refs[j]))
  }

  lemma {:induction false} RewrittenToDepth<L>(g: Graph<L>, h: Graph<L>, id: nat, n: nat)
    requires WellFormed(g) && WellFormed(h) && Rewritten(g, h) && id < |g|
    ensures Unfold(h, id, n) == Unfold(g, id, n)
    decreases n
  {
    if n > 0 {
      forall j | 0 <= j < |g[id].refs|
        ensures Unfold(h, h[id].refs[j], n - 1) == Unfold(g, g[id].refs[j], n - 1)
      {
        RewrittenToDepth(g, h, h[id].refs[j], n - 1);
        assert Same(g, g[id].refs[j], g, h[id].refs[j]);
      }
      UnfoldCongruence(h, id, g, id, n - 1);
    }
  }

  /** `h` has the meanings of `g`, id by id. */
  ghost predicate SameGraph<L>(g: Graph<L>, h: Graph<L>) {
    && WellFormed(g) && WellFormed(h) && |g| == |h|
    && forall id :: 0 <= id < |g| ==> Same(g, id, h, id)
  }

  /** Replacing references by ids of the same meaning changes no meaning. */
  lemma RewrittenSound<L>(g: Graph<L>, h: Graph<L>)
    requires WellFormed(g) && WellFormed(h) && Rewritten(g, h)
    ensures SameGraph(g, h)
  {
    forall id | 0 <= id < |g| ensures Same(g, id, h, id) {
      forall n: nat ensures Unfold(g, id, n) == Unfold(h, id, n) {
        RewrittenToDepth(g, h, id, n);
      }
    }
  }

  lemma SameGraphTrans<L>(g: Graph<L>, h: Graph<L>, k: Graph<L>)
    requires SameGraph(g, h) && SameGraph(h, k)
    ensures SameGraph(g, k)
  {
    forall id | 0 <= id < |g| ensures Same(g, id, k, id) {
      assert Same(h, id, k, id);
      SameTrans(g, id, h, id, k, id);
    }
  }

  /** The node of `h` at `f[id]` is the node of a representative of `id`, references renumbered. */
  ghost predicate QuotientAt<L>(g: Graph<L>, h: Graph<L>, rep: seq<nat>, f: seq<nat>, id: nat)
    requires WellFormed(g) && |rep| == |f| == |g| && id < |g|
  {
    && rep[id] < |g| && f[id] < |h| && Same(g, id, g, rep[id])
    && h[f[id]].sig == g[rep[id]].sig
    && |h[f[id]].refs| == |g[rep[id]].refs|
    && forall j :: 0 <= j < |g[rep[id]].refs| ==> h[f[id]].refs[j] == f[g[rep[id]].refs[j]]
  }

  /** `h` is the image of `g` under the renumbering `f`, one node per class of representatives. */
  ghost predicate Quotient<L>(g: Graph<L>, h: Graph<L>, rep: seq<nat>, f: seq<nat>)
    requires WellFormed(g)
  {
    |rep| == |f| == |g| && forall id :: 0 <= id < |g| ==> QuotientAt(g, h, rep, f, id)
  }

  lemma {:induction false} QuotientToDepth<L>(g: Graph<L>, h: Graph<L>, rep: seq<nat>, f: seq<nat>, id: nat, n: nat)
    requires WellFormed(g) && WellFormed(h) && Quotient(g, h, rep, f) && id < |g|
    ensures f[id] < |h| && Unfold(h, f[id], n) == Unfold(g, id, n)
    decreases n
  {
    assert QuotientAt(g, h, rep, f, id);
    if n > 0 {
      var r := rep[id];
      forall j | 0 <= j < |g[r].refs|
        ensures Unfold(h, h[f[id]].refs[j], n - 1) == Unfold(g, g[r].refs[j], n - 1)
      {
        QuotientToDepth(g, h, rep, f, g[r].refs[j], n - 1);
      }
      UnfoldCongruence(h, f[id], g, r, n - 1);
      assert Unfold(g, id, n) == Unfold(g, r, n);
    }
  }

  /** A quotient keeps the meaning of every id. */
  lemma QuotientSound<L>(g: Graph<L>, h: Graph<L>, rep: seq<nat>, f: seq<nat>)
    requires WellFormed(g) && WellFormed(h) && Quotient(g, h, rep, f)
    ensures forall id :: 0 <= id < |g| ==> f[id] < |h| && Same(g, id, h, f[id])
  {
    forall id | 0 <= id < |g| ensures f[id] < |h| && Same(g, id, h, f[id]) {
      assert QuotientAt(g, h, rep, f, id);
      forall n: nat ensures Unfold(g, id, n) == Unfold(h, f[id], n) {
        QuotientToDepth(g, h, rep, f, id, n);
      }
    }
  }

  /** Relabelling a whole graph. */
  ghost predicate Relabelled<L, M>(g: Graph<L>, h: Graph<M>, lab: L -> M) {
    && |g| == |h|
    && forall i :: 0 <= i < |g| ==> h[i].sig == lab(g[i].sig) && h[i].refs == g[i].refs
  }

  ghost function MapTree<L, M>(t: Tree<L>, lab: L -> M): (r: Tree<M>)
    decreases t, 0
  {
    match t
    case Cut => Cut
    case Branch(l, kids) => Branch(lab(l), MapTrees(kids, lab))
  }

  ghost function MapTrees<L, M>(ts: seq<Tree<L>>, lab: L -> M): (r: seq<Tree<M>>)
    ensures |r| == |ts|
    decreases ts, |ts|
  {
    if ts == [] then [] else [MapTree(ts[0], lab)] + MapTrees(ts[1..], lab)
  }

  /** Unfolding commutes with relabelling. */
  lemma {:induction false} UnfoldRelabelled<L, M>(g: Graph<L>, h: Graph<M>, lab: L -> M, id: nat, n: nat)
    requires WellFormed(g) && WellFormed(h) && Relabelled(g, h, lab) && id < |g|
    ensures Unfold(h, id, n) == MapTree(Unfold(g, id, n), lab)
    decreases n, 0
  {
    if n > 0 {
      assert h[id].refs == g[id].refs;
      UnfoldAllRelabelled(g, h, lab, g[id].refs, n - 1);
    }
  }

  lemma {:induction false} UnfoldAllRelabelled<L, M>(g: Graph<L>, h: Graph<M>, lab: L -> M, ids: seq<nat>, n: nat)
    requires WellFormed(g) && WellFormed(h) && Relabelled(g, h, lab)
    requires forall i :: 0 <= i < |ids| ==> ids[i] < |g|
    ensures UnfoldAll(h, ids, n) == MapTrees(UnfoldAll(g, ids, n), lab)
    decreases n, |ids| + 1
  {
    if ids != [] {
      UnfoldRelabelled(g, h, lab, ids[0], n);
      UnfoldAllRelabelled(g, h, lab, ids[1..], n);
      var ts := UnfoldAll(g, ids, n);
      assert ts[0] == Unfold(g, ids[0], n) && ts[1..] == UnfoldAll(g, ids[1..], n);
    }
  }
}
