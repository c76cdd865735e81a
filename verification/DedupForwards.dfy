/**
 What merging does for forwards: where two types that were found equivalent have a forward on one
 side and a struct or union on the other, neither is left a forward.
 */
module DedupForwards {
  import opened TypeGraph
  import opened CanonicalMap
  import opened BtfTypes
  import opened DedupSpec
  import opened DedupMerge

  // ----- types side by side

  ghost predicate ChildPair<L>(s: Node<L>, t: Node<L>, x: nat, y: nat) {
    exists j :: 0 <= j < |s.refs| && j < |t.refs| && s.refs[j] == x && t.refs[j] == y
  }

  /** The `i`-th pair of a walk: children, at one place, of the pair before it, which is of one
      signature, no forwards, and represented apart. */
  ghost predicate BesideStep<L>(h: Graph<L>, fwds: seq<bool>, rep: seq<nat>, walk: seq<(nat, nat)>, i: nat)
    requires |h| == |fwds| == |rep| && 0 < i < |walk| && walk[i - 1].0 < |h| && walk[i - 1].1 < |h|
  {
    var (a, b) := walk[i - 1];
    && h[a].sig == h[b].sig && !fwds[a] && !fwds[b] && rep[a] != rep[b]
    && ChildPair(h[a], h[b], walk[i].0, walk[i].1)
  }

  ghost predicate Beside<L>(h: Graph<L>, fwds: seq<bool>, rep: seq<nat>, walk: seq<(nat, nat)>) {
    && |h| == |fwds| == |rep| && walk != []
    && (forall i :: 0 <= i < |walk| ==> walk[i].0 < |h| && walk[i].1 < |h|)
    && forall i :: 0 < i < |walk| ==> BesideStep(h, fwds, rep, walk, i)
  }

  /** Walking in parallel from `x` and `y` one meets `c` and `k` side by side. */
  ghost predicate SideBySide<L>(h: Graph<L>, fwds: seq<bool>, rep: seq<nat>, x: nat, y: nat, c: nat, k: nat) {
    exists walk :: Beside(h, fwds, rep, walk) && walk[0] == (x, y) && walk[|walk| - 1] == (c, k)
  }

  /** `fwds` says which types are forwards, `left` which of them are still represented by one: where
      `x` and `y` have a forward and another type side by side, neither is. */
  ghost predicate ForwardsMet<L>(h: Graph<L>, fwds: seq<bool>, rep: seq<nat>, left: seq<bool>, x: nat, y: nat)
    requires |h| == |fwds| == |rep| == |left|
  {
    forall c: nat, k: nat :: c < |h| && k < |h| && SideBySide(h, fwds, rep, x, y, c, k) && fwds[c] != fwds[k] ==>
      !left[c] && !left[k]
  }

  // ----- representatives under the canonical map

  ghost function Fwds(g: BtfGraph): (r: seq<bool>)
    ensures |r| == |g| && forall i :: 0 <= i < |g| ==> r[i] == IsFwd(g[i])
  {
    seq(|g|, i requires 0 <= i < |g| => IsFwd(g[i]))
  }

  ghost function Roots(m: seq<nat>): (r: seq<nat>)
    requires Forest(m)
    ensures |r| == |m| && forall i :: 0 <= i < |m| ==> r[i] == Resolve(m, i)
  {
    seq(|m|, i requires 0 <= i < |m| => Resolve(m, i))
  }

  /** Which types resolve to forwards. */
  ghost function Left(g: BtfGraph, m: seq<nat>): (r: seq<bool>)
    requires |m| == |g| && Forest(m)
    ensures |r| == |g| && forall i :: 0 <= i < |g| ==> r[i] == IsFwd(g[Resolve(m, i)])
  {
    seq(|g|, i requires 0 <= i < |g| => IsFwd(g[Resolve(m, i)]))
  }

  ghost predicate Met(g: BtfGraph, m: seq<nat>, x: nat, y: nat)
    requires |m| == |g| && Forest(m)
  {
    ForwardsMet(g, Fwds(g), Roots(m), Left(g, m), x, y)
  }

  ghost predicate Joined(m: seq<nat>, a: nat, b: nat)
    requires Forest(m) && a < |m| && b < |m|
  {
    Resolve(m, a) == Resolve(m, b)
  }

  /** From `m` to `r` no joined types come apart, and what resolves to no forward, or to a mapped type
      that is none, goes on to do so. */
  ghost predicate Advances(g: BtfGraph, m: seq<nat>, r: seq<nat>) {
    && |m| == |r| == |g| && Forest(m) && Forest(r)
    && (forall a :: 0 <= a < |g| ==> StaysResolved(g, m, r, a))
    && (forall a, b :: 0 <= a < |g| && 0 <= b < |g| ==> JoinStays(m, r, a, b))
  }

  ghost predicate StaysResolved(g: BtfGraph, m: seq<nat>, r: seq<nat>, a: nat)
    requires |m| == |r| == |g| && Forest(m) && Forest(r) && a < |g|
  {
    !IsFwd(g[Resolve(m, a)]) ==>
      !IsFwd(g[Resolve(r, a)]) && (IsMapped(m, Resolve(m, a)) ==> IsMapped(r, Resolve(r, a)))
  }

  ghost predicate JoinStays(m: seq<nat>, r: seq<nat>, a: nat, b: nat)
    requires |m| == |r| && Forest(m) && Forest(r) && a < |m| && b < |m|
  {
    Joined(m, a, b) ==> Joined(r, a, b)
  }

  lemma {:induction false} AdvancesSelf(g: BtfGraph, m: seq<nat>)
    requires |m| == |g| && Forest(m)
    ensures Advances(g, m, m)
  {
  }

  lemma {:induction false} AdvancesTrans(g: BtfGraph, m: seq<nat>, r: seq<nat>, s: seq<nat>)
    requires Advances(g, m, r) && Advances(g, r, s)
    ensures Advances(g, m, s)
  {
    forall a | 0 <= a < |g| ensures StaysResolved(g, m, s, a) {
      assert StaysResolved(g, m, r, a) && StaysResolved(g, r, s, a);
    }
    forall a, b | 0 <= a < |g| && 0 <= b < |g| ensures JoinStays(m, s, a, b) {
      assert JoinStays(m, r, a, b) && JoinStays(r, s, a, b);
    }
  }

  /** Linking a forward, or an unmapped root, to a root that is no forward. */
  lemma {:induction false} LinkAdvances(g: BtfGraph, m: seq<nat>, x: nat, y: nat)
    requires |m| == |g| <= BTF_MAX_NR_TYPES + 1 && Forest(m) && x < |g| && y < |g| && x != y
    requires !IsLink(m, x) && !IsLink(m, y) && !IsFwd(g[y]) && (IsFwd(g[x]) || !IsMapped(m, x))
    ensures Advances(g, m, m[x := y])
  {
    var r := m[x := y];
    LinkToRoot(m, x, y);
    forall a | 0 <= a < |g| ensures StaysResolved(g, m, r, a) { ResolveLinked(m, x, y, a); }
    forall a, b | 0 <= a < |g| && 0 <= b < |g| ensures JoinStays(m, r, a, b) {
      ResolveLinked(m, x, y, a);
      ResolveLinked(m, x, y, b);
    }
  }

  /** Pointing an id at its root. */
  lemma {:induction false} ShortenAdvances(g: BtfGraph, m: seq<nat>, x: nat)
    requires |m| == |g| <= BTF_MAX_NR_TYPES + 1 && Forest(m) && x < |g|
    ensures Forest(m[x := Resolve(m, x)]) && Advances(g, m, m[x := Resolve(m, x)])
  {
    var r := m[x := Resolve(m, x)];
    ResolveShortened(m, x, x);
    forall a | 0 <= a < |g| ensures StaysResolved(g, m, r, a) { ResolveShortened(m, x, a); }
    forall a, b | 0 <= a < |g| && 0 <= b < |g| ensures JoinStays(m, r, a, b) {
      ResolveShortened(m, x, a);
      ResolveShortened(m, x, b);
    }
  }

  /** Forwards met stay met. */
  lemma {:induction false} MetStays(g: BtfGraph, m: seq<nat>, r: seq<nat>, x: nat, y: nat)
    requires Advances(g, m, r) && Met(g, m, x, y)
    ensures Met(g, r, x, y)
  {
    forall c: nat, k: nat
      | c < |g| && k < |g| && SideBySide(g, Fwds(g), Roots(r), x, y, c, k) && IsFwd(g[c]) != IsFwd(g[k])
      ensures !IsFwd(g[Resolve(r, c)]) && !IsFwd(g[Resolve(r, k)])
    {
      SideBySideBefore(g, m, r, x, y, c, k);
      assert StaysResolved(g, m, r, c) && StaysResolved(g, m, r, k);
    }
  }

  lemma {:induction false} SideBySideBefore(g: BtfGraph, m: seq<nat>, r: seq<nat>, x: nat, y: nat, c: nat, k: nat)
    requires Advances(g, m, r) && SideBySide(g, Fwds(g), Roots(r), x, y, c, k)
    ensures SideBySide(g, Fwds(g), Roots(m), x, y, c, k)
  {
    var walk := WalkTo(g, Fwds(g), Roots(r), x, y, c, k);
    forall i | 0 < i < |walk| ensures BesideStep(g, Fwds(g), Roots(m), walk, i) {
      assert BesideStep(g, Fwds(g), Roots(r), walk, i);
      assert JoinStays(m, r, walk[i - 1].0, walk[i - 1].1);
    }
    assert Beside(g, Fwds(g), Roots(m), walk);
  }

  // ----- one merge

  /** Structs and unions that are links lead to structs and unions that represent themselves. */
  ghost predicate StructLinks(g: BtfGraph, m: seq<nat>) {
    |m| == |g| && forall i :: 0 <= i < |g| && IsComposite(g[i]) && IsLink(m, i) ==>
      m[i] < |g| && m[m[i]] == m[i] && IsComposite(g[m[i]])
  }

  /** A struct or union is its own root, or its root is mapped. */
  lemma {:induction false} StructRoot(g: BtfGraph, m: seq<nat>, t: nat)
    requires StructLinks(g, m) && Forest(m) && t < |g| && IsComposite(g[t])
    ensures Resolve(m, t) == t || IsMapped(m, Resolve(m, t))
  {
    ResolveStep(m, t);
    if IsLink(m, t) { ResolveStep(m, m[t]); }
  }

  /** What one merge has done for its pair, candidate `c` and canonical `t`. */
  ghost predicate PairMerged(g: BtfGraph, m: seq<nat>, c: nat, t: nat, r: seq<nat>)
    requires |m| == |r| == |g| && Forest(m) && Forest(r) && c < |g| && t < |g|
  {
    var rc, rt := Resolve(m, c), Resolve(m, t);
    && (IsFwd(g[rc]) != IsFwd(g[rt]) ==> Joined(r, c, t) && !IsFwd(g[Resolve(r, t)]))
    && (IsComposite(g[rc]) && IsMapped(m, rc) && IsComposite(g[rt]) && !IsMapped(m, rt) ==> Joined(r, c, t))
  }

  lemma {:induction false} MergedPairAdvances(g: BtfGraph, m: seq<nat>, c: nat, t: nat)
    requires GraphOk(g) && |m| == |g| && Forest(m) && Links(g, m) && StructLinks(g, m) && c < |g| && t < |g|
    requires ClassOf(g, g[c]) == ClassOf(g, g[t])
    ensures Advances(g, m, MergedPair(g, m, c, t)) && PairMerged(g, m, c, t, MergedPair(g, m, c, t))
  {
    var rt, rc := Resolve(m, t), Resolve(m, c);
    RootsClass(g, m, c, t);
    AdvancesSelf(g, m);
    if !IsFwd(g[rt]) && IsFwd(g[rc]) {
      LinkAdvances(g, m, rc, rt);
      JoinedByLink(m, rc, rt, c, t);
    } else if IsFwd(g[rt]) && !IsFwd(g[rc]) {
      LinkAdvances(g, m, rt, rc);
      JoinedByLink(m, rt, rc, t, c);
    } else if IsComposite(g[rt]) && !IsFwd(g[rc]) && IsMapped(m, rc) && !IsMapped(m, rt) {
      LinkAdvances(g, m, rt, rc);
      JoinedByLink(m, rt, rc, t, c);
    }
  }

  lemma {:induction false} MergedPairStructs(g: BtfGraph, m: seq<nat>, c: nat, t: nat)
    requires GraphOk(g) && |m| == |g| && Forest(m) && Links(g, m) && StructLinks(g, m) && c < |g| && t < |g|
    requires ClassOf(g, g[c]) == ClassOf(g, g[t])
    ensures StructLinks(g, MergedPair(g, m, c, t)) && Links(g, MergedPair(g, m, c, t))
  {
    RootsClass(g, m, c, t);
    var rt, rc := Resolve(m, t), Resolve(m, c);
    if !IsFwd(g[rt]) && IsFwd(g[rc]) {
      MergedStruct(g, m, rc, rt);
    } else if IsFwd(g[rt]) && !IsFwd(g[rc]) {
      MergedStruct(g, m, rt, rc);
    } else if IsComposite(g[rt]) && !IsFwd(g[rc]) && IsMapped(m, rc) && !IsMapped(m, rt) {
      MergedStruct(g, m, rt, rc);
    }
  }

  lemma {:induction false} MergedStruct(g: BtfGraph, m: seq<nat>, x: nat, y: nat)
    requires |m| == |g| <= BTF_MAX_NR_TYPES + 1 && Links(g, m) && StructLinks(g, m) && x < |g| && y < |g|
    requires ClassOf(g, g[x]) == ClassOf(g, g[y]) && !IsFwd(g[y]) && !IsLink(m, y)
    requires IsFwd(g[x]) || (IsComposite(g[x]) && !IsMapped(m, x) && IsMapped(m, y))
    ensures StructLinks(g, m[x := y]) && Links(g, m[x := y])
  {
    ClassRepresents(g, x, y);
    LinksSet(g, m, x, y);
  }

  lemma {:induction false} JoinedByLink(m: seq<nat>, x: nat, y: nat, a: nat, b: nat)
    requires Forest(m) && |m| <= BTF_MAX_NR_TYPES + 1 && a < |m| && b < |m|
    requires x == Resolve(m, a) && y == Resolve(m, b) && x != y
    ensures Forest(m[x := y]) && Resolve(m[x := y], a) == y && Resolve(m[x := y], b) == y
  {
    ResolveLinked(m, x, y, a);
    ResolveLinked(m, x, y, b);
  }

  /** A struct or union that a merge links has a forward, or is the pair's own and linked with the
      other side of it. */
  lemma {:induction false} MergedPairLinks(g: BtfGraph, m: seq<nat>, c: nat, t: nat, x: nat)
    requires GraphOk(g) && |m| == |g| && Forest(m) && Links(g, m) && StructLinks(g, m) && c < |g| && t < |g|
    requires ClassOf(g, g[c]) == ClassOf(g, g[t]) && x < |g| && IsComposite(g[x]) && !IsLink(m, x)
    ensures var r := MergedPair(g, m, c, t);
            IsLink(r, x) ==>
              HasForward(g, g[x].sig) || (x == t && x != c && IsComposite(g[c]) && Joined(r, x, c))
  {
    var rt, rc := Resolve(m, t), Resolve(m, c);
    var r := MergedPair(g, m, c, t);
    RootsClass(g, m, c, t);
    if IsLink(r, x) {
      assert x == rt && !IsMapped(m, rt) && r == m[rt := rc];
      ResolveRepresents(g, m, t);
      SameClass(g, t, x);
      JoinedByLink(m, rt, rc, t, c);
      if IsComposite(g[t]) { StructRoot(g, m, t); }
    }
  }

  // ----- all merges

  /** What all merges have done for a recorded pair: where one side resolved to a forward and the other
      did not, neither does; and where the candidate's side resolved to a mapped struct or union, the
      other side resolves to a mapped type, too. */
  ghost predicate PairResolved(g: BtfGraph, m: seq<nat>, r: seq<nat>, c: nat, t: nat)
    requires |m| == |r| == |g| && Forest(m) && Forest(r) && c < |g| && t < |g|
  {
    var rc, rt := Resolve(m, c), Resolve(m, t);
    && (IsFwd(g[rc]) != IsFwd(g[rt]) ==> !IsFwd(g[Resolve(r, c)]) && !IsFwd(g[Resolve(r, t)]))
    && (IsComposite(g[rc]) && IsMapped(m, rc) ==> !IsFwd(g[Resolve(r, t)]) && IsMapped(r, Resolve(r, t)))
  }

  lemma {:induction false} RootClass(g: BtfGraph, m: seq<nat>, a: nat)
    requires Links(g, m) && Forest(m) && a < |g|
    ensures ClassOf(g, g[Resolve(m, a)]) == ClassOf(g, g[a])
  {
    ResolveRepresents(g, m, a);
    SameClass(g, a, Resolve(m, a));
  }

  /** A pair that is merged on the way stays so. */
  lemma {:induction false} PairResolvedBy(g: BtfGraph, m: seq<nat>, s: seq<nat>, s': seq<nat>, r: seq<nat>, c: nat,
                                          t: nat)
    requires Advances(g, m, s) && Advances(g, s, s') && Advances(g, s', r) && Links(g, m) && Links(g, s)
    requires c < |g| && t < |g| && ClassOf(g, g[c]) == ClassOf(g, g[t]) && PairMerged(g, s, c, t, s')
    ensures PairResolved(g, m, r, c, t)
  {
    RootClass(g, m, c);
    RootClass(g, m, t);
    RootClass(g, s, c);
    RootClass(g, s, t);
    assert StaysResolved(g, m, s, c) && StaysResolved(g, m, s, t);
    assert StaysResolved(g, s, s', c) && StaysResolved(g, s, s', t);
    assert StaysResolved(g, s', r, c) && StaysResolved(g, s', r, t);
  }

  /** A struct or union that merging has linked has a forward, or is a recorded side and joined with
      the other one. */
  ghost predicate LinkedByPair(g: BtfGraph, hyp: seq<nat>, list: seq<nat>, r: seq<nat>, x: nat)
    requires |r| == |g| && Forest(r) && x < |g|
  {
    || HasForward(g, g[x].sig)
    || exists k :: k in list && k < |g| && k < |hyp| && hyp[k] == x && k != x && IsComposite(g[k]) && Joined(r, x, k)
  }

  lemma {:induction false} LinkedStays(g: BtfGraph, hyp: seq<nat>, list: seq<nat>, m: seq<nat>, r: seq<nat>, x: nat)
    requires Advances(g, m, r) && x < |g| && LinkedByPair(g, hyp, list, m, x)
    ensures LinkedByPair(g, hyp, list, r, x)
  {
    if !HasForward(g, g[x].sig) {
      var k :| k in list && k < |g| && k < |hyp| && hyp[k] == x && k != x && IsComposite(g[k]) && Joined(m, x, k);
      assert JoinStays(m, r, x, k);
    }
  }

  /** What the first `n` merges have done. */
  ghost predicate StepsDone(g: BtfGraph, hyp: seq<nat>, list: seq<nat>, m: seq<nat>, r: seq<nat>, n: nat)
    requires Recorded(g, hyp, list)
  {
    && n <= |list| && Advances(g, m, r) && Links(g, r) && StructLinks(g, r)
    && (forall i :: 0 <= i < n ==> PairDone(g, hyp, m, r, list[i]))
    && (forall x :: 0 <= x < |g| ==> LinkDone(g, hyp, list, m, r, x))
    && (n > 0 ==> FirstDone(g, hyp, m, r, list[0]))
  }

  ghost predicate PairDone(g: BtfGraph, hyp: seq<nat>, m: seq<nat>, r: seq<nat>, k: nat)
    requires |m| == |r| == |g| == |hyp| && Forest(m) && Forest(r) && k < |g| && hyp[k] < |g|
  {
    PairResolved(g, m, r, k, hyp[k])
  }

  ghost predicate LinkDone(g: BtfGraph, hyp: seq<nat>, list: seq<nat>, m: seq<nat>, r: seq<nat>, x: nat)
    requires |m| == |r| == |g| && Forest(r) && x < |g|
  {
    IsComposite(g[x]) && !IsLink(m, x) && IsLink(r, x) ==> LinkedByPair(g, hyp, list, r, x)
  }

  /** The first pair is joined if it was about a struct or union with no representative. */
  ghost predicate FirstDone(g: BtfGraph, hyp: seq<nat>, m: seq<nat>, r: seq<nat>, k: nat)
    requires |m| == |r| == |g| == |hyp| && Forest(m) && Forest(r) && k < |g| && hyp[k] < |g|
  {
    var rc, rt := Resolve(m, k), Resolve(m, hyp[k]);
    IsComposite(g[rc]) && IsMapped(m, rc) && IsComposite(g[rt]) && !IsMapped(m, rt) ==> Joined(r, k, hyp[k])
  }

  lemma {:induction false} StepDone(g: BtfGraph, hyp: seq<nat>, list: seq<nat>, m: seq<nat>, s: seq<nat>, r: seq<nat>,
                                    n: nat)
    requires GraphOk(g) && Recorded(g, hyp, list) && PairClasses(g, hyp) && Links(g, m) && StructLinks(g, m)
    requires StepsDone(g, hyp, list, m, s, n) && n < |list| && (n == 0 ==> s == m)
    requires r == MergedPair(g, s, list[n], hyp[list[n]])
    ensures StepsDone(g, hyp, list, m, r, n + 1)
  {
    MergedPairAdvances(g, s, list[n], hyp[list[n]]);
    MergedPairStructs(g, s, list[n], hyp[list[n]]);
    AdvancesTrans(g, m, s, r);
    StepPairs(g, hyp, list, m, s, r, n);
    forall x | 0 <= x < |g| ensures LinkDone(g, hyp, list, m, r, x) {
      StepLinks(g, hyp, list, m, s, list[n], x);
    }
    if n > 0 { assert JoinStays(s, r, list[0], hyp[list[0]]); }
  }

  lemma {:induction false} StepPairs(g: BtfGraph, hyp: seq<nat>, list: seq<nat>, m: seq<nat>, s: seq<nat>, r: seq<nat>,
                                     n: nat)
    requires GraphOk(g) && Recorded(g, hyp, list) && PairClasses(g, hyp) && Links(g, m) && Links(g, s)
    requires n < |list| && Advances(g, m, s) && Advances(g, s, r) && PairMerged(g, s, list[n], hyp[list[n]], r)
    requires forall i :: 0 <= i < n ==> PairDone(g, hyp, m, s, list[i])
    ensures forall i :: 0 <= i < n + 1 ==> PairDone(g, hyp, m, r, list[i])
  {
    AdvancesSelf(g, r);
    PairResolvedBy(g, m, s, r, r, list[n], hyp[list[n]]);
    forall i | 0 <= i < n + 1 ensures PairDone(g, hyp, m, r, list[i]) {
      if i < n { PairDoneStays(g, hyp, m, s, r, list[i]); }
    }
  }

  lemma {:induction false} PairDoneStays(g: BtfGraph, hyp: seq<nat>, m: seq<nat>, s: seq<nat>, r: seq<nat>, k: nat)
    requires |hyp| == |g| && Advances(g, m, s) && Advances(g, s, r) && k < |g| && hyp[k] < |g|
    requires PairDone(g, hyp, m, s, k)
    ensures PairDone(g, hyp, m, r, k)
  {
    assert StaysResolved(g, s, r, k) && StaysResolved(g, s, r, hyp[k]);
  }

  lemma {:induction false} StepLinks(g: BtfGraph, hyp: seq<nat>, list: seq<nat>, m: seq<nat>, s: seq<nat>, c: nat,
                                     x: nat)
    requires GraphOk(g) && Recorded(g, hyp, list) && PairClasses(g, hyp) && |m| == |s| == |g| && Forest(s)
    requires Links(g, s) && StructLinks(g, s) && c in list && x < |g| && LinkDone(g, hyp, list, m, s, x)
    ensures LinkDone(g, hyp, list, m, MergedPair(g, s, c, hyp[c]), x)
  {
    var r := MergedPair(g, s, c, hyp[c]);
    if IsComposite(g[x]) && !IsLink(m, x) && IsLink(r, x) {
      if IsLink(s, x) {
        MergedPairAdvances(g, s, c, hyp[c]);
        LinkedStays(g, hyp, list, s, r, x);
      } else {
        MergedPairLinks(g, s, c, hyp[c], x);
      }
    }
  }

  lemma {:induction false} StepsAreDone(g: BtfGraph, hyp: seq<nat>, list: seq<nat>, maps: seq<seq<nat>>, n: nat)
    requires GraphOk(g) && MergeSteps(g, hyp, list, maps) && n < |maps| && PairClasses(g, hyp)
    requires |maps[0]| == |g| && Forest(maps[0]) && Links(g, maps[0]) && StructLinks(g, maps[0])
    ensures StepsDone(g, hyp, list, maps[0], maps[n], n)
  {
    if n > 0 {
      StepsAreDone(g, hyp, list, maps, n - 1);
      StepDoneAt(g, hyp, list, maps[0], maps, n - 1);
    } else {
      NoneDone(g, hyp, list, maps[0]);
    }
  }

  lemma {:induction false} NoneDone(g: BtfGraph, hyp: seq<nat>, list: seq<nat>, m: seq<nat>)
    requires |m| == |g| && Forest(m) && Links(g, m) && StructLinks(g, m) && Recorded(g, hyp, list)
    ensures StepsDone(g, hyp, list, m, m, 0)
  {
    AdvancesSelf(g, m);
  }

  lemma {:induction false} StepDoneAt(g: BtfGraph, hyp: seq<nat>, list: seq<nat>, m: seq<nat>, maps: seq<seq<nat>>,
                                      n: nat)
    requires GraphOk(g) && MergeSteps(g, hyp, list, maps) && n + 1 < |maps| && PairClasses(g, hyp)
    requires Links(g, m) && StructLinks(g, m) && StepsDone(g, hyp, list, m, maps[n], n) && (n == 0 ==> maps[n] == m)
    ensures StepsDone(g, hyp, list, m, maps[n + 1], n + 1)
  {
    assert MergeStep(g, hyp, list, maps, n);
    StepDone(g, hyp, list, m, maps[n], maps[n + 1], n);
  }

  lemma {:induction false} MergeDone(g: BtfGraph, hyp: seq<nat>, list: seq<nat>, m: seq<nat>, r: seq<nat>)
    requires GraphOk(g) && |m| == |g| && Forest(m) && Links(g, m) && StructLinks(g, m)
    requires MergesTo(g, m, hyp, list, r) && PairClasses(g, hyp)
    ensures Recorded(g, hyp, list) && StepsDone(g, hyp, list, m, r, |list|)
  {
    var maps :| MergeSteps(g, hyp, list, maps) && |maps| == |list| + 1 && maps[0] == m && maps[|list|] == r;
    StepsAreDone(g, hyp, list, maps, |list|);
  }

  // ----- forwards met by the equivalence check

  /** Side by side with settled types are settled types. */
  lemma {:induction false} WalkSettled(g: BtfGraph, m: seq<nat>, hyp: seq<nat>, dontResolve: bool, x: nat, y: nat,
                                       walk: seq<(nat, nat)>, i: nat)
    requires GraphOk(g) && |m| == |g| == |hyp| && Forest(m) && ClosedExcept(g, m, hyp, {}, dontResolve)
    requires Settled(g, m, hyp, x, y) && Beside(g, Fwds(g), Roots(m), walk) && walk[0] == (x, y) && i < |walk|
    ensures Settled(g, m, hyp, walk[i].0, walk[i].1)
    decreases i
  {
    if i > 0 {
      WalkSettled(g, m, hyp, dontResolve, x, y, walk, i - 1);
      assert BesideStep(g, Fwds(g), Roots(m), walk, i);
      var (a, b) := walk[i - 1];
      assert PairClosed(g, m, hyp, b, dontResolve);
    }
  }

  /** A settled pair of a forward and a struct or union is resolved by the merge. */
  lemma {:induction false} SettledResolved(g: BtfGraph, m: seq<nat>, hyp: seq<nat>, list: seq<nat>, r: seq<nat>, c: nat,
                                           k: nat, dontResolve: bool)
    requires GraphOk(g) && |m| == |g| == |hyp| && Forest(m) && Links(g, m) && Recorded(g, hyp, list)
    requires ClosedExcept(g, m, hyp, {}, dontResolve) && StepsDone(g, hyp, list, m, r, |list|)
    requires forall i :: 0 <= i < |hyp| && hyp[i] <= BTF_MAX_NR_TYPES ==> i in list
    requires c < |g| && k < |g| && Settled(g, m, hyp, c, k) && IsFwd(g[c]) != IsFwd(g[k])
    requires IsComposite(g[c]) || IsComposite(g[k])
    ensures !IsFwd(g[Resolve(r, c)]) && !IsFwd(g[Resolve(r, k)])
  {
    ResolveRepresents(g, m, c);
    ResolveRepresents(g, m, k);
    assert StaysResolved(g, m, r, c) && StaysResolved(g, m, r, k);
    if !Joined(m, c, k) {
      var t := FwdTarget(g, m, k);
      var i :| 0 <= i < |list| && list[i] == t;
      assert PairDone(g, hyp, m, r, list[i]);
      if t != k { RootTarget(g, m, k); }
    }
  }

  lemma RootTarget(g: BtfGraph, m: seq<nat>, k: nat)
    requires |m| == |g| && Forest(m) && k < |g| && FwdTarget(g, m, k) != k
    ensures !IsFwd(g[Resolve(m, k)])
  {
  }

  /** After the merge the forwards that two settled types have side by side with structs or unions are
      resolved. */
  lemma {:induction false} SettledMet(g: BtfGraph, m: seq<nat>, hyp: seq<nat>, list: seq<nat>, r: seq<nat>, x: nat,
                                      y: nat, dontResolve: bool)
    requires GraphOk(g) && |m| == |g| == |hyp| && Forest(m) && Links(g, m) && Recorded(g, hyp, list)
    requires ClosedExcept(g, m, hyp, {}, dontResolve) && StepsDone(g, hyp, list, m, r, |list|)
    requires forall i :: 0 <= i < |hyp| && hyp[i] <= BTF_MAX_NR_TYPES ==> i in list
    requires x < |g| && y < |g| && Settled(g, m, hyp, x, y)
    ensures Met(g, r, x, y)
  {
    forall c: nat, k: nat
      | c < |g| && k < |g| && SideBySide(g, Fwds(g), Roots(r), x, y, c, k) && IsFwd(g[c]) != IsFwd(g[k])
      ensures !IsFwd(g[Resolve(r, c)]) && !IsFwd(g[Resolve(r, k)])
    {
      SideBySideBefore(g, m, r, x, y, c, k);
      SideSettled(g, m, hyp, x, y, c, k, dontResolve);
      SettledOther(g, m, hyp, c, k, dontResolve);
      SettledResolved(g, m, hyp, list, r, c, k, dontResolve);
    }
  }

  lemma {:induction false} SideSettled(g: BtfGraph, m: seq<nat>, hyp: seq<nat>, x: nat, y: nat, c: nat, k: nat,
                                       dontResolve: bool)
    requires GraphOk(g) && |m| == |g| == |hyp| && Forest(m) && ClosedExcept(g, m, hyp, {}, dontResolve)
    requires Settled(g, m, hyp, x, y) && SideBySide(g, Fwds(g), Roots(m), x, y, c, k)
    ensures Settled(g, m, hyp, c, k)
  {
    var walk := WalkTo(g, Fwds(g), Roots(m), x, y, c, k);
    WalkSettled(g, m, hyp, dontResolve, x, y, walk, |walk| - 1);
  }

  lemma {:induction false} WalkTo<L>(h: Graph<L>, fwds: seq<bool>, rep: seq<nat>, x: nat, y: nat, c: nat, k: nat)
      returns (walk: seq<(nat, nat)>)
    requires SideBySide(h, fwds, rep, x, y, c, k)
    ensures Beside(h, fwds, rep, walk) && walk[0] == (x, y) && walk[|walk| - 1] == (c, k)
  {
    walk :| Beside(h, fwds, rep, walk) && walk[0] == (x, y) && walk[|walk| - 1] == (c, k);
  }

  /** What is settled with a forward is a forward, a struct or a union. */
  lemma {:induction false} SettledOther(g: BtfGraph, m: seq<nat>, hyp: seq<nat>, c: nat, k: nat, dontResolve: bool)
    requires GraphOk(g) && |m| == |g| == |hyp| && Forest(m) && Links(g, m)
    requires ClosedExcept(g, m, hyp, {}, dontResolve) && Settled(g, m, hyp, c, k) && IsFwd(g[c]) != IsFwd(g[k])
    ensures IsComposite(g[c]) || IsComposite(g[k])
  {
    RootClass(g, m, c);
    RootClass(g, m, k);
    if !Joined(m, c, k) {
      var t := FwdTarget(g, m, k);
      assert PairClosed(g, m, hyp, t, dontResolve);
      CompatibleClass(g, c, t, dontResolve);
    }
  }

  // ----- who a struct or union is represented with

  /** A struct or union represented by another has a forward, or a partner: one of its signature and
      with the same representative, such that where the two have a forward and a struct or union side
      by side the forward is resolved. */
  ghost predicate Partnered(g: BtfGraph, m: seq<nat>) {
    |m| == |g| && Forest(m) && forall x :: 0 <= x < |g| ==> PartneredAt(g, m, x)
  }

  ghost predicate PartneredAt(g: BtfGraph, m: seq<nat>, x: nat)
    requires |m| == |g| && Forest(m) && x < |g|
  {
    IsComposite(g[x]) && IsLink(m, x) ==> HasForward(g, g[x].sig) || HasPartner(g, m, x)
  }

  ghost predicate HasPartner(g: BtfGraph, m: seq<nat>, x: nat)
    requires |m| == |g| && Forest(m) && x < |g|
  {
    exists y: nat :: y < |g| && IsPartner(g, m, x, y)
  }

  ghost predicate IsPartner(g: BtfGraph, m: seq<nat>, x: nat, y: nat)
    requires |m| == |g| && Forest(m) && x < |g| && y < |g|
  {
    y != x && g[y].sig == g[x].sig && Joined(m, x, y) && Met(g, m, x, y)
  }

  lemma {:induction false} PartnerStays(g: BtfGraph, m: seq<nat>, r: seq<nat>, x: nat)
    requires Advances(g, m, r) && x < |g| && HasPartner(g, m, x)
    ensures HasPartner(g, r, x)
  {
    var y: nat :| y < |g| && IsPartner(g, m, x, y);
    assert JoinStays(m, r, x, y);
    MetStays(g, m, r, x, y);
    assert IsPartner(g, r, x, y);
  }

  /** The merge keeps partners and finds one for each struct or union that it links. */
  lemma {:induction false} MergePartners(g: BtfGraph, m: seq<nat>, hyp: seq<nat>, list: seq<nat>, r: seq<nat>,
                                         dontResolve: bool)
    requires GraphOk(g) && |m| == |g| == |hyp| && Forest(m) && Links(g, m) && Recorded(g, hyp, list)
    requires ClosedExcept(g, m, hyp, {}, dontResolve) && StepsDone(g, hyp, list, m, r, |list|)
    requires forall i :: 0 <= i < |hyp| && hyp[i] <= BTF_MAX_NR_TYPES ==> i in list
    requires Partnered(g, m)
    ensures Partnered(g, r)
  {
    forall x | 0 <= x < |g| ensures PartneredAt(g, r, x) {
      assert PartneredAt(g, m, x) && LinkDone(g, hyp, list, m, r, x);
      if IsComposite(g[x]) && IsLink(r, x) && !HasForward(g, g[x].sig) {
        if IsLink(m, x) {
          PartnerStays(g, m, r, x);
        } else {
          LinkedPartner(g, m, hyp, list, r, x, dontResolve);
        }
      }
    }
  }

  lemma {:induction false} LinkedPartner(g: BtfGraph, m: seq<nat>, hyp: seq<nat>, list: seq<nat>, r: seq<nat>, x: nat,
                                         dontResolve: bool)
    requires GraphOk(g) && |m| == |g| == |hyp| && Forest(m) && Links(g, m) && Recorded(g, hyp, list)
    requires ClosedExcept(g, m, hyp, {}, dontResolve) && StepsDone(g, hyp, list, m, r, |list|)
    requires forall i :: 0 <= i < |hyp| && hyp[i] <= BTF_MAX_NR_TYPES ==> i in list
    requires x < |g| && IsComposite(g[x]) && LinkedByPair(g, hyp, list, r, x) && !HasForward(g, g[x].sig)
    ensures HasPartner(g, r, x)
  {
    var k :| k in list && k < |g| && k < |hyp| && hyp[k] == x && k != x && IsComposite(g[k]) && Joined(r, x, k);
    RecordedStructs(g, m, hyp, k, dontResolve);
    SettledMet(g, m, hyp, list, r, x, k, dontResolve);
    assert IsPartner(g, r, x, k);
  }

  /** Recorded structs and unions are settled and of one signature. */
  lemma {:induction false} RecordedStructs(g: BtfGraph, m: seq<nat>, hyp: seq<nat>, k: nat, dontResolve: bool)
    requires GraphOk(g) && |m| == |g| == |hyp| && Forest(m) && ClosedExcept(g, m, hyp, {}, dontResolve)
    requires k < |g| && hyp[k] < |g| && IsComposite(g[k]) && IsComposite(g[hyp[k]])
    ensures Settled(g, m, hyp, hyp[k], k) && g[hyp[k]].sig == g[k].sig
  {
    assert PairClosed(g, m, hyp, k, dontResolve);
  }

  /** Recording the representative of a struct or union: itself, or one it has been joined with. */
  lemma {:induction false} RecordAdvances(g: BtfGraph, m: seq<nat>, x: nat, y: nat)
    requires |m| == |g| <= BTF_MAX_NR_TYPES + 1 && Forest(m) && StructLinks(g, m) && Partnered(g, m)
    requires x < |g| && y < |g| && IsComposite(g[x]) && IsComposite(g[y]) && Resolve(m, x) == y
    requires y != x ==> m[y] == y && IsPartner(g, m, x, y)
    ensures Forest(m[x := y]) && Advances(g, m, m[x := y]) && StructLinks(g, m[x := y]) && Partnered(g, m[x := y])
  {
    ShortenAdvances(g, m, x);
    RecordLinks(g, m, x, y);
    var r := m[x := y];
    forall i | 0 <= i < |g| ensures PartneredAt(g, r, i) {
      assert PartneredAt(g, m, i);
      if IsComposite(g[i]) && IsLink(r, i) && !HasForward(g, g[i].sig) {
        if i == x { assert HasPartner(g, m, x); }
        PartnerStays(g, m, r, i);
      }
    }
  }

  lemma {:induction false} RecordLinks(g: BtfGraph, m: seq<nat>, x: nat, y: nat)
    requires |m| == |g| && StructLinks(g, m) && x < |g| && y < |g| && IsComposite(g[x]) && IsComposite(g[y])
    requires y != x ==> m[y] == y
    ensures m[x] != x || y == x ==> StructLinks(g, m[x := y])
  {
  }

  /** What merging does after the check found `x` equivalent to `y`. */
  ghost predicate MergeOutcome(g: BtfGraph, m: seq<nat>, hyp: seq<nat>, r: seq<nat>, x: nat, y: nat)
    requires |m| == |g| == |hyp| && Forest(m) && x < |g| && y < |g|
  {
    && StructAdvance(g, m, r) && Joined(r, x, y) && Met(g, r, x, y)
    && forall k :: 0 <= k < |hyp| && hyp[k] < |g| ==> PairDone(g, hyp, m, r, k)
  }

  lemma {:induction false} MergeResolves(g: BtfGraph, m: seq<nat>, hyp: seq<nat>, list: seq<nat>, r: seq<nat>, x: nat,
                                         y: nat, dontResolve: bool)
    requires GraphOk(g) && |m| == |g| == |hyp| && Forest(m) && Links(g, m) && StructLinks(g, m) && Partnered(g, m)
    requires ClosedExcept(g, m, hyp, {}, dontResolve) && MergesTo(g, m, hyp, list, r)
    requires forall i :: 0 <= i < |hyp| && hyp[i] <= BTF_MAX_NR_TYPES ==> i in list
    requires x < |g| && y < |g| && IsComposite(g[x]) && !IsMapped(m, x) && IsComposite(g[y]) && m[y] == y
    requires list != [] && list[0] == y && hyp[y] == x
    ensures MergeOutcome(g, m, hyp, r, x, y)
  {
    ClosedPairClasses(g, m, hyp, dontResolve);
    MergeDone(g, hyp, list, m, r);
    ResolveStep(m, x);
    ResolveStep(m, y);
    RecordedStructs(g, m, hyp, y, dontResolve);
    SettledMet(g, m, hyp, list, r, x, y, dontResolve);
    MergePartners(g, m, hyp, list, r, dontResolve);
    forall k | 0 <= k < |hyp| && hyp[k] < |g| ensures PairDone(g, hyp, m, r, k) {
      var i :| 0 <= i < |list| && list[i] == k;
      assert PairDone(g, hyp, m, r, list[i]);
    }
  }

  /** A step of the struct pass: nothing comes apart, and links and partners are in order. */
  ghost predicate StructAdvance(g: BtfGraph, m: seq<nat>, r: seq<nat>) {
    Advances(g, m, r) && StructLinks(g, r) && Partnered(g, r)
  }

  lemma {:induction false} StructAdvanceSelf(g: BtfGraph, m: seq<nat>)
    requires Forest(m) && StructLinks(g, m) && Partnered(g, m)
    ensures StructAdvance(g, m, m)
  {
    AdvancesSelf(g, m);
  }

  lemma {:induction false} StructAdvanceTrans(g: BtfGraph, m: seq<nat>, r: seq<nat>, s: seq<nat>)
    requires StructAdvance(g, m, r) && StructAdvance(g, r, s)
    ensures StructAdvance(g, m, s)
  {
    AdvancesTrans(g, m, r, s);
  }

  /** Recording the representative after the candidates were tried. */
  lemma {:induction false} RecordStep(g: BtfGraph, m: seq<nat>, r: seq<nat>, x: nat, y: nat)
    requires |g| <= BTF_MAX_NR_TYPES + 1 && StructAdvance(g, m, r) && x < |g| && y < |g|
    requires IsComposite(g[x]) && IsComposite(g[y]) && !IsMapped(m, x)
    requires if y == x then r == m else m[y] == y && r[y] == y && IsPartner(g, r, x, y)
    ensures Forest(r[x := y]) && StructAdvance(g, m, r[x := y])
  {
    ResolveStep(r, x);
    ResolveStep(r, y);
    RecordAdvances(g, r, x, y);
    AdvancesTrans(g, m, r, r[x := y]);
  }

  // ----- structs that were refused

  /** Two canonical structs or unions of one signature: at some time no closed hypothetical map settled
      them, the later with the earlier. */
  ghost predicate StructsRefused(g: BtfGraph, m: seq<nat>, n: nat, dontResolve: bool)
    requires Layouts(g)
  {
    |m| == |g| && n <= |g| && forall i, j :: 0 < i < j < n ==> PairRefused(g, m, i, j, dontResolve)
  }

  ghost predicate PairRefused(g: BtfGraph, m: seq<nat>, i: nat, j: nat, dontResolve: bool)
    requires Layouts(g) && |m| == |g| && i < |g| && j < |g|
  {
    IsComposite(g[i]) && IsComposite(g[j]) && m[i] == i && m[j] == j && g[j].sig == g[i].sig ==>
      WasRefused(g, m, i, j, dontResolve)
  }

  ghost predicate WasRefused(g: BtfGraph, m: seq<nat>, i: nat, j: nat, dontResolve: bool)
    requires Layouts(g) && i < |g| && j < |g|
  {
    exists m0 :: Advances(g, m0, m) && Unsettleable(g, m0, j, i, dontResolve)
  }

  lemma {:induction false} StaysRefused(g: BtfGraph, m: seq<nat>, r: seq<nat>, i: nat, j: nat, dontResolve: bool)
    requires Layouts(g) && Advances(g, m, r) && i < |g| && j < |g| && WasRefused(g, m, i, j, dontResolve)
    ensures WasRefused(g, r, i, j, dontResolve)
  {
    var m0 :| Advances(g, m0, m) && Unsettleable(g, m0, j, i, dontResolve);
    AdvancesTrans(g, m0, m, r);
  }
}
