/**
 Which types a link of the canonical map may join when forwards are resolved, and what merging the
 hypothetical map into the canonical map does.
 */
module DedupMerge {
  import opened TypeGraph
  import opened CanonicalMap
  import opened BtfTypes
  import opened DedupSpec

  // ----- what links may join

  /** Some type of the graph is the forward declaration of `s`. */
  ghost predicate HasForward<N>(g: Graph<Signature<N>>, s: Signature<N>) {
    exists f :: 0 <= f < |g| && StandsFor(g[f].sig, s)
  }

  predicate Composite<N>(s: Signature<N>) {
    InfoKind(s.info) == KIND_STRUCT || InfoKind(s.info) == KIND_UNION
  }

  /** `t` may take the place of `s`: they are equal, `s` is the forward declaration of `t`, or both
      are structs or unions of one kind and name that has a forward. */
  ghost predicate Represents<N>(g: Graph<Signature<N>>, s: Signature<N>, t: Signature<N>) {
    || s == t
    || StandsFor(s, t)
    || (Composite(s) && InfoKind(t.info) == InfoKind(s.info) && t.name == s.name && HasForward(g, s))
  }

  lemma {:induction false} RepresentsTrans<N>(g: Graph<Signature<N>>, s: Signature<N>, t: Signature<N>, u: Signature<N>)
    requires Represents(g, s, t) && Represents(g, t, u)
    ensures Represents(g, s, u)
  {
  }

  /** Of two compatible enums that differ, one is the forward declaration of the other. */
  lemma {:induction false} CompatEnumStands(t1: BtfType, t2: BtfType)
    requires Layout(t1) && Layout(t2) && IsEnum(t1) && CompatEnum(t1, t2) && t1 != t2
    ensures IsEnum(t2) && (IsEnumFwd(t1) <==> !IsEnumFwd(t2))
    ensures if IsEnumFwd(t1) then StandsFor(t1.sig, t2.sig) else StandsFor(t2.sig, t1.sig)
  {
    CompatEnumMeans(t1, t2);
  }

  /** A forward enum is compatible with what it stands for. */
  lemma {:induction false} StandsCompat(t1: BtfType, t2: BtfType)
    requires Layout(t1) && Layout(t2) && IsEnum(t1) && StandsFor(t1.sig, t2.sig)
    ensures IsEnum(t2) && CompatEnum(t1, t2) && CompatEnum(t2, t1) && IsEnumFwd(t1) && !IsEnumFwd(t2)
  {
    InfoSplit(t1.sig.info);
    InfoSplit(t2.sig.info);
  }

  /** What stands for an enum is a forward enum. */
  lemma {:induction false} StandsOther(t1: BtfType, t2: BtfType)
    requires Layout(t1) && Layout(t2) && IsEnum(t2) && StandsFor(t1.sig, t2.sig)
    ensures IsEnum(t1) && CompatEnum(t2, t1) && IsEnumFwd(t1) && !IsEnumFwd(t2)
  {
    InfoSplit(t1.sig.info);
    InfoSplit(t2.sig.info);
  }

  /** Every link leads to a type that may take the place of the linked one. */
  ghost predicate Links(g: BtfGraph, m: seq<nat>) {
    |m| == |g| && forall i :: 0 <= i < |m| ==> LinkAt(g, m, i)
  }

  ghost predicate LinkAt(g: BtfGraph, m: seq<nat>, i: nat)
    requires |m| == |g| && i < |g|
  {
    IsLink(m, i) ==> m[i] < |g| && Represents(g, g[i].sig, g[m[i]].sig)
  }

  lemma {:induction false} LinksSet(g: BtfGraph, m: seq<nat>, x: nat, v: nat)
    requires Links(g, m) && x < |g|
    requires v > BTF_MAX_NR_TYPES || v == x || (v < |g| && Represents(g, g[x].sig, g[v].sig))
    ensures Links(g, m[x := v])
  {
    var m' := m[x := v];
    forall i | 0 <= i < |m'| ensures LinkAt(g, m', i) { assert LinkAt(g, m, i); }
  }

  lemma {:induction false} LinksRewritten(g: BtfGraph, g': BtfGraph, m: seq<nat>)
    requires Links(g, m) && |g'| == |g| && forall i :: 0 <= i < |g| ==> g'[i].sig == g[i].sig
    ensures Links(g', m)
  {
    forall i | 0 <= i < |m| ensures LinkAt(g', m, i) {
      assert LinkAt(g, m, i);
      if IsLink(m, i) { RepresentsIn(g, g', g[i].sig, g[m[i]].sig); }
    }
  }

  lemma {:induction false} RepresentsIn(g: BtfGraph, g': BtfGraph, s: Signature<nat>, t: Signature<nat>)
    requires Represents(g, s, t) && |g'| == |g| && forall i :: 0 <= i < |g| ==> g'[i].sig == g[i].sig
    ensures Represents(g', s, t)
  {
    if HasForward(g, s) {
      var f :| 0 <= f < |g| && StandsFor(g[f].sig, s);
      assert StandsFor(g'[f].sig, s);
    }
  }

  lemma {:induction false} ResolveByRepresents(g: BtfGraph, m: seq<nat>, rank: seq<nat>, id: nat)
    requires Links(g, m) && Ranks(m, rank) && id < |m|
    ensures Represents(g, g[id].sig, g[ResolveBy(m, rank, id)].sig)
    decreases rank[id]
  {
    if IsLink(m, id) {
      assert LinkAt(g, m, id);
      ResolveByRepresents(g, m, rank, m[id]);
      RepresentsTrans(g, g[id].sig, g[m[id]].sig, g[ResolveBy(m, rank, m[id])].sig);
    }
  }

  /** What a type resolves to may take its place. */
  lemma {:induction false} ResolveRepresents(g: BtfGraph, m: seq<nat>, id: nat)
    requires Links(g, m) && Forest(m) && id < |m|
    ensures Represents(g, g[id].sig, g[Resolve(m, id)].sig)
  {
    var rank: seq<nat> :| Ranks(m, rank) && Resolve(m, id) == ResolveBy(m, rank, id);
    ResolveByRepresents(g, m, rank, id);
  }

  // ----- what recorded pairs may join

  /** Structs, unions and forwards that may come to be represented by one another. */
  datatype Class = OfKind(kind: nat) | Declared(kind: nat, name: nat) | Alone(sig: Signature<nat>)

  ghost function ClassOf(g: BtfGraph, t: BtfType): Class {
    if IsFwd(t) then Declared(FwdKind(t), t.sig.name)
    else if !IsComposite(t) then OfKind(Kind(t))
    else if HasForward(g, t.sig) then Declared(Kind(t), t.sig.name)
    else Alone(t.sig)
  }

  /** What takes the place of a type is of its class. */
  lemma {:induction false} SameClass(g: BtfGraph, a: nat, b: nat)
    requires a < |g| && b < |g| && Represents(g, g[a].sig, g[b].sig)
    ensures ClassOf(g, g[a]) == ClassOf(g, g[b])
  {
    InfoSplit(g[a].sig.info);
    InfoSplit(g[b].sig.info);
    if HasForward(g, g[a].sig) && IsComposite(g[a]) {
      var f :| 0 <= f < |g| && StandsFor(g[f].sig, g[a].sig);
      KindOfForward(g[f].sig, g[a].sig, g[b].sig);
    }
  }

  /** A forward of one struct or union stands for all of its kind and name. */
  lemma {:induction false} KindOfForward(f: Signature<nat>, s: Signature<nat>, t: Signature<nat>)
    requires StandsFor(f, s) && Composite(s)
    ensures InfoKind(t.info) == InfoKind(s.info) && t.name == s.name ==> StandsFor(f, t)
  {
    InfoSplit(f.info);
    InfoSplit(s.info);
  }

  /** A forward, struct or union may be represented by a struct or union of its class. */
  lemma {:induction false} ClassRepresents(g: BtfGraph, a: nat, b: nat)
    requires a < |g| && b < |g| && ClassOf(g, g[a]) == ClassOf(g, g[b])
    requires IsComposite(g[b]) && (IsComposite(g[a]) || IsFwd(g[a]))
    ensures Represents(g, g[a].sig, g[b].sig)
  {
  }

  /** The two sides of every recorded pair are of one class. */
  ghost predicate PairClasses(g: BtfGraph, hyp: seq<nat>) {
    && |hyp| == |g|
    && forall k :: 0 <= k < |hyp| && hyp[k] <= BTF_MAX_NR_TYPES ==>
         hyp[k] < |g| && ClassOf(g, g[k]) == ClassOf(g, g[hyp[k]])
  }

  lemma {:induction false} ClosedPairClasses(g: BtfGraph, m: seq<nat>, hyp: seq<nat>, dontResolve: bool)
    requires |m| == |g| == |hyp| && Forest(m) && Layouts(g) && ClosedExcept(g, m, hyp, {}, dontResolve)
    ensures PairClasses(g, hyp)
  {
    forall k | 0 <= k < |hyp| && hyp[k] <= BTF_MAX_NR_TYPES
      ensures hyp[k] < |g| && ClassOf(g, g[k]) == ClassOf(g, g[hyp[k]])
    {
      assert PairClosed(g, m, hyp, k, dontResolve);
      CompatibleClass(g, hyp[k], k, dontResolve);
    }
  }

  lemma {:induction false} CompatibleClass(g: BtfGraph, c: nat, k: nat, dontResolve: bool)
    requires Layouts(g) && c < |g| && k < |g| && LocallyCompatible(g[c], g[k], dontResolve)
    ensures ClassOf(g, g[c]) == ClassOf(g, g[k])
  {
    if FwdMatches(g[c], g[k]) {
      assert StandsFor(g[c].sig, g[k].sig) || StandsFor(g[k].sig, g[c].sig);
    } else if g[c].sig != g[k].sig {
      CompatEnumMeans(g[c], g[k]);
    }
  }

  /** The roots of a pair of one class are of one class. */
  lemma {:induction false} RootsClass(g: BtfGraph, m: seq<nat>, c: nat, t: nat)
    requires Links(g, m) && Forest(m) && c < |g| && t < |g| && ClassOf(g, g[c]) == ClassOf(g, g[t])
    ensures ClassOf(g, g[Resolve(m, c)]) == ClassOf(g, g[Resolve(m, t)])
  {
    ResolveRepresents(g, m, c);
    ResolveRepresents(g, m, t);
    SameClass(g, c, Resolve(m, c));
    SameClass(g, t, Resolve(m, t));
  }

  // ----- merging

  /** Merging one recorded pair, candidate `c` and canonical `t`. */
  ghost function MergedPair(g: BtfGraph, m: seq<nat>, c: nat, t: nat): (r: seq<nat>)
    requires |m| == |g| && Forest(m) && c < |g| && t < |g|
    ensures |r| == |g| && Forest(r)
  {
    var tId, cId := Resolve(m, t), Resolve(m, c);
    if !IsFwd(g[tId]) && IsFwd(g[cId]) then
      LinkToRoot(m, cId, tId);
      m[cId := tId]
    else if IsFwd(g[tId]) && !IsFwd(g[cId]) then
      LinkToRoot(m, tId, cId);
      m[tId := cId]
    else if IsComposite(g[tId]) && !IsFwd(g[cId]) && IsMapped(m, cId) && !IsMapped(m, tId) then
      LinkToRoot(m, tId, cId);
      m[tId := cId]
    else m
  }

  /** All ids of the list are recorded with ids of the graph. */
  ghost predicate Recorded(g: BtfGraph, hyp: seq<nat>, list: seq<nat>) {
    |hyp| == |g| && forall i :: 0 <= i < |list| ==> list[i] < |g| && hyp[list[i]] < |g|
  }

  /** Each of `maps` comes from the one before by merging the pair recorded for the next id of the list. */
  ghost predicate MergeSteps(g: BtfGraph, hyp: seq<nat>, list: seq<nat>, maps: seq<seq<nat>>) {
    && Recorded(g, hyp, list) && 0 < |maps| <= |list| + 1
    && forall i :: 0 <= i < |maps| - 1 ==> MergeStep(g, hyp, list, maps, i)
  }

  ghost predicate MergeStep(g: BtfGraph, hyp: seq<nat>, list: seq<nat>, maps: seq<seq<nat>>, i: nat)
    requires Recorded(g, hyp, list) && i < |list| && i + 1 < |maps|
  {
    |maps[i]| == |g| && Forest(maps[i]) && MergedPair(g, maps[i], list[i], hyp[list[i]]) == maps[i + 1]
  }

  lemma {:induction false} MergeStepsNext(g: BtfGraph, hyp: seq<nat>, list: seq<nat>, maps: seq<seq<nat>>, r: seq<nat>)
    requires MergeSteps(g, hyp, list, maps) && |maps| <= |list|
    requires var i := |maps| - 1;
             |maps[i]| == |g| && Forest(maps[i]) && r == MergedPair(g, maps[i], list[i], hyp[list[i]])
    ensures MergeSteps(g, hyp, list, maps + [r])
  {
    var longer := maps + [r];
    forall i | 0 <= i < |longer| - 1 ensures MergeStep(g, hyp, list, longer, i) {
      if i < |maps| - 1 { assert MergeStep(g, hyp, list, maps, i); }
    }
  }

  /** Merging the pairs recorded for a list, one after the other, leads from `m` to `r`. */
  ghost predicate MergesTo(g: BtfGraph, m: seq<nat>, hyp: seq<nat>, list: seq<nat>, r: seq<nat>) {
    exists maps :: MergeSteps(g, hyp, list, maps) && |maps| == |list| + 1 && maps[0] == m && maps[|list|] == r
  }

  /** Merging has one result. */
  lemma {:induction false} MergesUnique(g: BtfGraph, m: seq<nat>, hyp: seq<nat>, list: seq<nat>, r: seq<nat>,
                                        r': seq<nat>)
    requires MergesTo(g, m, hyp, list, r) && MergesTo(g, m, hyp, list, r')
    ensures r == r'
  {
    var maps :| MergeSteps(g, hyp, list, maps) && |maps| == |list| + 1 && maps[0] == m && maps[|list|] == r;
    var maps' :| MergeSteps(g, hyp, list, maps') && |maps'| == |list| + 1 && maps'[0] == m && maps'[|list|] == r';
    StepsUnique(g, hyp, list, maps, maps', |list|);
  }

  lemma {:induction false} StepsUnique(g: BtfGraph, hyp: seq<nat>, list: seq<nat>, maps: seq<seq<nat>>,
                                       maps': seq<seq<nat>>, n: nat)
    requires MergeSteps(g, hyp, list, maps) && MergeSteps(g, hyp, list, maps') && n < |maps| == |maps'|
    requires maps[0] == maps'[0]
    ensures maps[n] == maps'[n]
  {
    if n > 0 {
      StepsUnique(g, hyp, list, maps, maps', n - 1);
      assert MergeStep(g, hyp, list, maps, n - 1) && MergeStep(g, hyp, list, maps', n - 1);
    }
  }
}
