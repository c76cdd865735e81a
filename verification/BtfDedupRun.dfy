/**
 `btf__dedup` as a whole: the string pass followed by the type passes.
 */
module BtfDedupRun {
  import opened Common
  import opened TypeGraph
  import opened CanonicalMap
  import opened BtfTypes
  import opened StringDedup
  import opened DedupSpec
  import opened DedupLimits
  import opened DedupMerge
  import opened DedupForwards
  import opened DedupErrors
  import opened DedupIds
  import Passes = BtfDedup

  // ----- the string references of a graph

  /** The string offsets one type holds, in the order of the walk. */
  function TypeSlots(t: BtfType): seq<nat> {
    [t.sig.name] + t.sig.names
  }

  /** The string offsets of types 1 .. n-1. */
  function Slots(g: BtfGraph, n: nat): (s: seq<nat>)
    requires n <= |g|
  {
    if n <= 1 then [] else Slots(g, n - 1) + TypeSlots(g[n - 1])
  }

  /** `t` with its string offsets replaced. */
  function Renamed(t: BtfType, w: seq<nat>): BtfType
    requires |w| == |TypeSlots(t)|
  {
    t.(sig := t.sig.(name := w[0], names := w[1..]))
  }

  lemma {:induction false} SlotsMonotone(g: BtfGraph, a: nat, b: nat)
    requires a <= b <= |g|
    ensures Slots(g, a) <= Slots(g, b)
    decreases b
  {
    if a < b {
      SlotsMonotone(g, a, b - 1);
    }
  }

  lemma {:induction false} SlotsAt(g: BtfGraph, i: nat)
    requires 0 < i < |g|
    ensures var lo := |Slots(g, i)|; var hi := lo + |TypeSlots(g[i])|;
            hi <= |Slots(g, |g|)| && Slots(g, |g|)[lo..hi] == TypeSlots(g[i])
  {
    SlotsMonotone(g, i + 1, |g|);
    assert Slots(g, i + 1) == Slots(g, i) + TypeSlots(g[i]);
  }

  /** The types before `i` have taken back their slots. */
  ghost predicate StoredUpTo(g: BtfGraph, w: seq<nat>, g': BtfGraph, i: nat)
    requires |w| == |Slots(g, |g|)|
  {
    && 1 <= i <= |g| == |g'| && g'[0] == g[0]
    && (forall k :: 0 < k < i ==> StoredSlots(g, w, g'[k], k))
    && (forall k :: i <= k < |g| ==> g'[k] == g[k])
  }

  lemma {:induction false} StoreOne(g: BtfGraph, w: seq<nat>, g': BtfGraph, i: nat)
    requires |w| == |Slots(g, |g|)| && i < |g| && StoredUpTo(g, w, g', i)
    ensures var lo := SlotCount(g, i); var hi := lo + 1 + |g[i].sig.names|;
            hi <= |w| && hi == SlotCount(g, i + 1) && g'[i] == g[i]
            && StoredUpTo(g, w, g'[i := Renamed(g[i], w[lo..hi])], i + 1)
  {
    SlotsAt(g, i);
    SlotsCounted(g, i);
    var lo := |Slots(g, i)|;
    var hi := lo + 1 + |g[i].sig.names|;
    var after := g'[i := Renamed(g[i], w[lo..hi])];
    assert StoredSlots(g, w, after[i], i);
  }

  /** How many slots the types before `n` hold. */
  function SlotCount(g: BtfGraph, n: nat): nat
    requires n <= |g|
  {
    if n <= 1 then 0 else SlotCount(g, n - 1) + 1 + |g[n - 1].sig.names|
  }

  lemma {:induction false} SlotsCounted(g: BtfGraph, n: nat)
    requires n <= |g|
    ensures |Slots(g, n)| == SlotCount(g, n)
  {
    if n > 1 { SlotsCounted(g, n - 1); }
  }

  /** The remapping half of `btf_for_each_str_off`: each type takes back its slots. */
  method StoreSlots(g: BtfGraph, w: seq<nat>) returns (g': BtfGraph)
    requires |g| > 0 && |w| == |Slots(g, |g|)|
    ensures |g'| == |g| && g'[0] == g[0]
    ensures forall i :: 0 < i < |g| ==> StoredSlots(g, w, g'[i], i)
  {
    g' := g;
    var i, lo := 1, 0;
    while i < |g|
      invariant 1 <= i <= |g| && lo == SlotCount(g, i) && StoredUpTo(g, w, g', i)
    {
      StoreOne(g, w, g', i);
      var hi := lo + 1 + |g[i].sig.names|;
      g' := g'[i := Renamed(g'[i], w[lo..hi])];
      i, lo := i + 1, hi;
    }
  }

  ghost predicate StoredSlots(g: BtfGraph, w: seq<nat>, t: BtfType, i: nat)
    requires 0 < i < |g| && |w| == |Slots(g, |g|)|
  {
    var lo := |Slots(g, i)|;
    var hi := lo + |TypeSlots(g[i])|;
    hi <= |w| && t == Renamed(g[i], w[lo..hi])
  }

  // ----- meaning with names as string contents

  ghost function Contents(data: Bytes, names: seq<nat>): (r: seq<Bytes>)
    ensures |r| == |names| && forall i :: 0 <= i < |names| ==> r[i] == Text(data, names[i])
  {
    seq(|names|, i requires 0 <= i < |names| => Text(data, names[i]))
  }

  /** A signature with its names spelt out. */
  ghost function Spelt(data: Bytes): Signature<nat> -> Signature<Bytes> {
    (s: Signature<nat>) => Signature(Text(data, s.name), s.info, s.size, Contents(data, s.names), s.vals)
  }

  /** A graph with its names spelt out. */
  ghost function SpeltGraph(data: Bytes, g: BtfGraph): (h: Graph<Signature<Bytes>>)
    ensures Relabelled(g, h, Spelt(data))
  {
    seq(|g|, i requires 0 <= i < |g| => Node(Spelt(data)(g[i].sig), g[i].refs))
  }

  lemma SpeltWellFormed(data: Bytes, g: BtfGraph)
    requires WellFormed(g)
    ensures WellFormed(SpeltGraph(data, g))
  {
  }

  /** Ids that mean the same still do when names are spelt out. */
  lemma SameSpelt(data: Bytes, g: BtfGraph, a: nat, h: BtfGraph, b: nat)
    requires WellFormed(g) && WellFormed(h) && a < |g| && b < |h| && Same(g, a, h, b)
    ensures WellFormed(SpeltGraph(data, g)) && WellFormed(SpeltGraph(data, h))
    ensures Same(SpeltGraph(data, g), a, SpeltGraph(data, h), b)
  {
    var gs, hs := SpeltGraph(data, g), SpeltGraph(data, h);
    SpeltWellFormed(data, g);
    SpeltWellFormed(data, h);
    forall n: nat ensures Unfold(gs, a, n) == Unfold(hs, b, n) {
      UnfoldRelabelled(g, gs, Spelt(data), a, n);
      UnfoldRelabelled(h, hs, Spelt(data), b, n);
      assert Unfold(g, a, n) == Unfold(h, b, n);
    }
  }

  /** Storing preserved references leaves a type spelt as before. */
  lemma {:induction false} SlotsSpelt(data: Bytes, data': Bytes, g: BtfGraph, w: seq<nat>, t: BtfType, i: nat)
    requires 0 < i < |g| && |w| == |Slots(g, |g|)| && StoredSlots(g, w, t, i)
    requires forall j :: 0 <= j < |w| ==> Text(data', w[j]) == Text(data, Slots(g, |g|)[j])
    ensures Spelt(data')(t.sig) == Spelt(data)(g[i].sig) && t.refs == g[i].refs
  {
    SlotsAt(g, i);
    var lo := |Slots(g, i)|;
    TypeSpelt(data, data', g[i], t, Slots(g, |g|), w, lo);
  }

  /** One type and the slots it takes back. */
  lemma TypeSpelt(data: Bytes, data': Bytes, was: BtfType, t: BtfType, s: seq<nat>, w: seq<nat>, lo: nat)
    requires |s| == |w| && lo + |TypeSlots(was)| <= |s|
    requires s[lo..lo + |TypeSlots(was)|] == TypeSlots(was) && t == Renamed(was, w[lo..lo + |TypeSlots(was)|])
    requires forall j :: 0 <= j < |w| ==> Text(data', w[j]) == Text(data, s[j])
    ensures Spelt(data')(t.sig) == Spelt(data)(was.sig) && t.refs == was.refs
  {
    assert TypeSlots(was)[0] == s[lo] && t.sig.name == w[lo];
    forall j | 0 <= j < |was.sig.names| ensures Text(data', t.sig.names[j]) == Text(data, was.sig.names[j]) {
      assert TypeSlots(was)[1 + j] == s[lo + 1 + j] && t.sig.names[j] == w[lo + 1 + j];
    }
    assert Contents(data', t.sig.names) == Contents(data, was.sig.names);
  }

  lemma {:induction false} SpeltUnchanged(data: Bytes, data': Bytes, g: BtfGraph, g': BtfGraph, w: seq<nat>)
    requires Section(data) && Section(data') && |g| > 0 && g[0].sig.name == 0 && g[0].sig.names == []
    requires |w| == |Slots(g, |g|)| && |g'| == |g| && g'[0] == g[0]
    requires forall i :: 0 < i < |g| ==> StoredSlots(g, w, g'[i], i)
    requires forall j :: 0 <= j < |w| ==> Text(data', w[j]) == Text(data, Slots(g, |g|)[j])
    ensures SpeltGraph(data', g') == SpeltGraph(data, g)
  {
    forall i | 0 <= i < |g| ensures SpeltGraph(data', g')[i] == SpeltGraph(data, g)[i] {
      if i > 0 { SlotsSpelt(data, data', g, w, g'[i], i); }
      assert Contents(data', []) == Contents(data, []);
    }
  }

  lemma {:induction false} StoredGraphOk(g: BtfGraph, w: seq<nat>, g': BtfGraph)
    requires GraphOk(g) && |w| == |Slots(g, |g|)| && |g'| == |g| && g'[0] == g[0]
    requires forall i :: 0 < i < |g| ==> StoredSlots(g, w, g'[i], i)
    ensures GraphOk(g') && SameShape(g, g')
  {
    forall i | 0 <= i < |g|
      ensures g'[i].refs == g[i].refs && g'[i].sig.info == g[i].sig.info && Layout(g'[i])
    {
      assert Layout(g[i]);
      if i > 0 { assert StoredSlots(g, w, g'[i], i); }
    }
  }

  // ----- equal names share an offset

  /** Some type refers to a string by this offset. */
  ghost predicate IsName(g: BtfGraph, off: nat) {
    exists i :: 0 < i < |g| && off in TypeSlots(g[i])
  }

  /** No two offsets the types refer to hold the same string. */
  ghost predicate OneOffsetPerName(data: Bytes, g: BtfGraph) {
    forall x, y :: IsName(g, x) && IsName(g, y) && Text(data, x) == Text(data, y) ==> x == y
  }

  lemma {:induction false} NameFromSlot(g: BtfGraph, w: seq<nat>, g': BtfGraph, off: nat) returns (j: nat)
    requires |g| == |g'| > 0 && |w| == |Slots(g, |g|)| && IsName(g', off)
    requires forall i :: 0 < i < |g| ==> StoredSlots(g, w, g'[i], i)
    ensures j < |w| && w[j] == off
  {
    var i :| 0 < i < |g'| && off in TypeSlots(g'[i]);
    assert StoredSlots(g, w, g'[i], i);
    j := SlotOfName(w, |Slots(g, i)|, g[i], g'[i], off);
  }

  lemma {:induction false} SlotOfName(w: seq<nat>, lo: nat, was: BtfType, t: BtfType, off: nat) returns (j: nat)
    requires lo + |TypeSlots(was)| <= |w| && t == Renamed(was, w[lo..lo + |TypeSlots(was)|]) && off in TypeSlots(t)
    ensures j < |w| && w[j] == off
  {
    var mine := w[lo..lo + |TypeSlots(was)|];
    RenamedSlots(was, mine);
    var x :| 0 <= x < |mine| && mine[x] == off;
    j := lo + x;
  }

  lemma {:induction false} RenamedSlots(t: BtfType, w: seq<nat>)
    requires |w| == |TypeSlots(t)|
    ensures TypeSlots(Renamed(t, w)) == w
  {
  }

  lemma {:induction false} StoredNamesDistinct(data: Bytes, slots: seq<nat>, ext: seq<nat>, data': Bytes, w: seq<nat>,
                                               g: BtfGraph, g': BtfGraph)
    requires Preserved(data, slots + ext, data', w) && |g| == |g'| > 0 && slots == Slots(g, |g|)
    requires forall i :: 0 < i < |g| ==> StoredSlots(g, w[..|slots|], g'[i], i)
    ensures OneOffsetPerName(data', g')
  {
    var all, stored := slots + ext, w[..|slots|];
    forall x, y | IsName(g', x) && IsName(g', y) && Text(data', x) == Text(data', y) ensures x == y {
      var i := NameFromSlot(g, stored, g', x);
      var j := NameFromSlot(g, stored, g', y);
      assert w[i] == x && w[j] == y;
      assert StrAt(data', w[i]) == StrAt(data, all[i]) && StrAt(data', w[j]) == StrAt(data, all[j]);
    }
  }

  /** No two types of a merged kind are equal, with names as strings. */
  ghost predicate SpeltIrredundant(h: Graph<Signature<Bytes>>, fwds: bool) {
    forall i, j :: 0 < i < j < |h| && Passes.MergedKind(InfoKind(h[i].sig.info), fwds) ==> h[i] != h[j]
  }

  /** Types that are equal when spelt out are equal. */
  lemma {:induction false} SpeltInjective(data: Bytes, g: BtfGraph, t: BtfType, u: BtfType)
    requires OneOffsetPerName(data, g) && Passes.SignatureFrom(t, g) && Passes.SignatureFrom(u, g)
    requires Spelt(data)(t.sig) == Spelt(data)(u.sig) && t.refs == u.refs
    ensures t == u
  {
    NamesOf(g, t);
    NamesOf(g, u);
    var a, b := Contents(data, t.sig.names), Contents(data, u.sig.names);
    assert a == b && |t.sig.names| == |a| == |u.sig.names|;
    forall j | 0 <= j < |t.sig.names| ensures t.sig.names[j] == u.sig.names[j] {
      assert a[j] == Text(data, t.sig.names[j]) && b[j] == Text(data, u.sig.names[j]);
    }
    assert t.sig.names == u.sig.names && t.sig.name == u.sig.name;
  }

  lemma {:induction false} NamesOf(g: BtfGraph, t: BtfType)
    requires Passes.SignatureFrom(t, g)
    ensures IsName(g, t.sig.name) && forall j :: 0 <= j < |t.sig.names| ==> IsName(g, t.sig.names[j])
  {
    var k :| 0 < k < |g| && t.sig == g[k].sig;
    assert TypeSlots(g[k])[0] == t.sig.name;
    forall j | 0 <= j < |t.sig.names| ensures IsName(g, t.sig.names[j]) {
      assert TypeSlots(g[k])[1 + j] == t.sig.names[j];
    }
  }

  lemma {:induction false} IrredundantSpelt(data: Bytes, g: BtfGraph, f: BtfGraph, fwds: bool)
    requires OneOffsetPerName(data, g) && Passes.SignaturesFrom(f, g) && Passes.Irredundant(f, fwds)
    ensures SpeltIrredundant(SpeltGraph(data, f), fwds)
  {
    var h := SpeltGraph(data, f);
    forall i, j | 0 < i < j < |h| && Passes.MergedKind(InfoKind(h[i].sig.info), fwds) ensures h[i] != h[j] {
      assert f[i] != f[j];
      assert Passes.SignatureFrom(f[i], g) && Passes.SignatureFrom(f[j], g);
      if h[i] == h[j] { SpeltInjective(data, g, f[i], f[j]); }
    }
  }

  // ----- what ids say about meaning

  /** The final ids of `a` and `b` stand for types of `g` that are in conflict. */
  ghost predicate IdsInConflict(g: BtfGraph, ids: seq<nat>, a: nat, b: nat)
    requires |ids| == |g| && a < |g| && b < |g|
  {
    exists x: nat, y: nat ::
      && x < |g| && y < |g| && ids[x] == ids[a] && ids[y] == ids[b]
      && (OwnConflict(g, x, y) || OwnConflict(g, y, x))
  }

  /** Structs and unions of equal meaning in `h` get one id, unless their ids are in conflict. */
  ghost predicate StructsShareIds<L>(h: Graph<L>, g: BtfGraph, ids: seq<nat>)
    requires WellFormed(h) && |h| == |g| == |ids|
  {
    forall a, b :: 0 <= a < |g| && 0 <= b < |g| && IsComposite(g[a]) && Same(h, a, h, b) ==>
      ids[a] == ids[b] || IdsInConflict(g, ids, a, b)
  }

  /** No two structs or unions of equal meaning in `h` are in conflict. */
  ghost predicate NoConflicts<L>(h: Graph<L>, g: BtfGraph)
    requires WellFormed(h) && |h| == |g|
  {
    forall a, b :: 0 <= a < |g| && 0 <= b < |g| && IsComposite(g[a]) && Same(h, a, h, b) ==> !OwnConflict(g, a, b)
  }

  /** Two types get one id exactly when they mean the same in `h`. */
  ghost predicate IdsAreMeanings<L>(h: Graph<L>, ids: seq<nat>)
    requires WellFormed(h) && |h| == |ids|
  {
    forall a, b :: 0 <= a < |h| && 0 <= b < |h| ==> (Same(h, a, h, b) <==> ids[a] == ids[b])
  }

  lemma {:induction false} ShareFromJoin(g: BtfGraph, m: seq<nat>, ids: seq<nat>)
    requires WellFormed(g) && |m| == |g| == |ids| && Forest(m) && Passes.StructsJoin(g, m)
    requires forall id :: 0 <= id < |g| ==> ids[id] == Passes.FinalId(m, id)
    ensures StructsShareIds(g, g, ids)
  {
    forall a, b | 0 <= a < |g| && 0 <= b < |g| && IsComposite(g[a]) && Same(g, a, g, b)
      ensures ids[a] == ids[b] || IdsInConflict(g, ids, a, b)
    {
      var ra, rb := Resolve(m, a), Resolve(m, b);
      ResolveStep(m, ra);
      ResolveStep(m, rb);
      assert ids[ra] == ids[a] && ids[rb] == ids[b];
    }
  }

  /** Spelt signatures tell signatures apart. */
  lemma {:induction false} SpeltSignature(data: Bytes, g: BtfGraph, a: nat, b: nat)
    requires OneOffsetPerName(data, g) && GraphOk(g) && Passes.NoUnknown(g) && a < |g| && b < |g|
    requires Spelt(data)(g[a].sig) == Spelt(data)(g[b].sig)
    ensures g[a].sig == g[b].sig
  {
    assert Kind(g[a]) == Kind(g[b]);
    if 0 < a && 0 < b {
      assert Passes.SignatureFrom(g[a], g) && Passes.SignatureFrom(g[b], g);
      SpeltInjective(data, g, Node(g[a].sig, []), Node(g[b].sig, []));
    }
  }

  lemma {:induction false} UnspeltToDepth(data: Bytes, g: BtfGraph, h: Graph<Signature<Bytes>>, a: nat, b: nat, n: nat)
    requires OneOffsetPerName(data, g) && GraphOk(g) && Passes.NoUnknown(g) && a < |g| && b < |g|
    requires h == SpeltGraph(data, g) && WellFormed(h) && Unfold(h, a, n) == Unfold(h, b, n)
    ensures Unfold(g, a, n) == Unfold(g, b, n)
    decreases n
  {
    if n > 0 {
      UnfoldInvert(h, a, h, b, n - 1);
      SpeltSignature(data, g, a, b);
      forall j | 0 <= j < |g[a].refs| ensures Unfold(g, g[a].refs[j], n - 1) == Unfold(g, g[b].refs[j], n - 1) {
        UnspeltToDepth(data, g, h, g[a].refs[j], g[b].refs[j], n - 1);
      }
      UnfoldCongruence(g, a, g, b, n - 1);
    }
  }

  /** When equal names share an offset, spelling names out tells the same types apart. */
  lemma {:induction false} SameSpeltIff(data: Bytes, g: BtfGraph, a: nat, b: nat)
    requires OneOffsetPerName(data, g) && GraphOk(g) && Passes.NoUnknown(g) && a < |g| && b < |g|
    ensures WellFormed(SpeltGraph(data, g))
    ensures Same(SpeltGraph(data, g), a, SpeltGraph(data, g), b) <==> Same(g, a, g, b)
  {
    var h := SpeltGraph(data, g);
    SpeltWellFormed(data, g);
    if Same(g, a, g, b) { SameSpelt(data, g, a, g, b); }
    if Same(h, a, h, b) {
      forall n: nat ensures Unfold(g, a, n) == Unfold(g, b, n) { UnspeltToDepth(data, g, h, a, b, n); }
    }
  }

  /** What the type passes say of renamed types, told of the types as they came. */
  lemma {:induction false} SharedIdsSpelt(data: Bytes, g: BtfGraph, h: Graph<Signature<Bytes>>, g': BtfGraph,
                                          ids: seq<nat>)
    requires OneOffsetPerName(data, g') && GraphOk(g') && Passes.NoUnknown(g') && SameReferences(g, g')
    requires h == SpeltGraph(data, g') && WellFormed(h) && |ids| == |g|
    requires forall i :: 0 <= i < |g| ==> Kind(g[i]) == Kind(g'[i])
    requires StructsShareIds(g', g', ids)
    ensures StructsShareIds(h, g, ids)
  {
    forall a, b | 0 <= a < |g| && 0 <= b < |g| && IsComposite(g[a]) && Same(h, a, h, b)
      ensures ids[a] == ids[b] || IdsInConflict(g, ids, a, b)
    {
      SameSpeltIff(data, g', a, b);
      if ids[a] != ids[b] {
        assert IdsInConflict(g', ids, a, b);
        var x: nat, y: nat :|
          && x < |g'| && y < |g'| && ids[x] == ids[a] && ids[y] == ids[b]
          && (OwnConflict(g', x, y) || OwnConflict(g', y, x));
        if OwnConflict(g', x, y) { OwnConflictTransfer(g', g, x, y); } else { OwnConflictTransfer(g', g, y, x); }
      }
    }
  }

  lemma {:induction false} NoConflictsRenamed(data: Bytes, g: BtfGraph, h: Graph<Signature<Bytes>>, g': BtfGraph)
    requires OneOffsetPerName(data, g') && GraphOk(g') && Passes.NoUnknown(g') && SameReferences(g, g')
    requires h == SpeltGraph(data, g') && WellFormed(h)
    requires forall i :: 0 <= i < |g| ==> Kind(g[i]) == Kind(g'[i])
    requires NoConflicts(h, g)
    ensures NoConflicts(g', g')
  {
    forall a, b | 0 <= a < |g'| && 0 <= b < |g'| && IsComposite(g'[a]) && Same(g', a, g', b)
      ensures !OwnConflict(g', a, b)
    {
      SameSpeltIff(data, g', a, b);
      if OwnConflict(g', a, b) { OwnConflictTransfer(g', g, a, b); }
    }
  }

  lemma {:induction false} MeaningsSpelt(data: Bytes, g: BtfGraph, ids: seq<nat>)
    requires OneOffsetPerName(data, g) && GraphOk(g) && Passes.NoUnknown(g) && |ids| == |g| && IdsAreMeanings(g, ids)
    ensures WellFormed(SpeltGraph(data, g)) && IdsAreMeanings(SpeltGraph(data, g), ids)
  {
    SpeltWellFormed(data, g);
    var h := SpeltGraph(data, g);
    forall a, b | 0 <= a < |h| && 0 <= b < |h| ensures Same(h, a, h, b) <==> ids[a] == ids[b] {
      SameSpeltIff(data, g, a, b);
    }
  }

  // ----- the whole run

  /** What the string pass leaves behind: the names are renumbered, the line information refers to the
      strings it referred to, and the section holds no other strings. */
  ghost predicate StringsKept(data: Bytes, g: BtfGraph, ext: seq<nat>, data': Bytes, g': BtfGraph, ext': seq<nat>) {
    && Section(data') && NamesRenumbered(data, g, data', g') && Trimmed(data', Slots(g', |g'|) + ext')
    && |ext'| == |ext| && forall j :: 0 <= j < |ext| ==> Text(data', ext'[j]) == Text(data, ext[j])
  }

  /** What becomes of the types `g`, which renumbered are `g'`: no two types of a merged kind are left
      equal, ids say what they say in any case, and structs of one signature without forwards get one
      id or could not be settled. */
  ghost predicate TypesMerged(data: Bytes, g: BtfGraph, data': Bytes, g': BtfGraph, f: BtfGraph, ids: seq<nat>,
                              dontResolve: bool)
    requires Layouts(g')
  {
    && WellFormed(f) && |f| <= |g|
    && SpeltIrredundant(SpeltGraph(data', f), PlainForwards(g))
    && IdsOutcome(SpeltGraph(data, g), SpeltGraph(data', f), ids, dontResolve)
    && StructsCompared(g', ids, Exact(dontResolve, g'))
  }

  /** What the ids mean when there are no forwards to resolve: every type means the same as the type it
      became, structs of equal meaning get one id unless their ids are in conflict, and when no structs
      are in conflict two types get one id exactly when they mean the same. */
  ghost predicate MeaningsKept(data: Bytes, g: BtfGraph, data': Bytes, f: BtfGraph, ids: seq<nat>) {
    var gs, fs := SpeltGraph(data, g), SpeltGraph(data', f);
    && WellFormed(gs) && WellFormed(fs) && |ids| == |g|
    && (forall id :: 0 <= id < |g| ==> ids[id] < |f| && Same(gs, id, fs, ids[id]))
    && (PlainForwards(g) ==> StructsShareIds(gs, g, ids))
    && (PlainForwards(g) && Passes.NoVariables(g) && NoConflicts(gs, g) ==> IdsAreMeanings(gs, ids))
  }

  /** `btf__dedup`.  `ext` holds the string offsets of the line information, in the order of the walk;
      `collide` selects the colliding hash function; with `memory` every allocation is granted,
      otherwise any of them may fail.  With memory a run fails only at a reference that is no string
      start, at types of unknown kind or that cannot be compared, and at circles of references.  On
      success `ids` maps every original type id to its id in the result, and `named` is the graph with
      its names renumbered. */
  method Dedup(strings: Bytes, types: BtfGraph, ext: seq<nat>, dontResolveFwds: bool, collide: bool, memory: bool)
      returns (err: int, strings': Bytes, types': BtfGraph, ext': seq<nat>, ghost ids: seq<nat>, ghost named: BtfGraph)
    requires Section(strings) && GraphOk(types) && types[0].sig.name == 0 && types[0].sig.names == []
    ensures err <= 0 && RunBlamed(strings, types, ext, memory, err)
    ensures err == OK ==> !BadReference(strings, types, ext) && Passes.NoUnknown(types) && RefsAcyclic(types)
    ensures err == OK ==> StringsKept(strings, types, ext, strings', named, ext')
    ensures err == OK ==> TypesMerged(strings, types, strings', named, types', ids, dontResolveFwds)
    ensures err == OK && Exact(dontResolveFwds, SpeltGraph(strings, types)) ==>
              MeaningsKept(strings, types, strings', types', ids)
  {
    strings', types', ext', ids, named := strings, types, ext, [], types;
    var granted: bool := *;
    if !memory && !granted { err := EINVAL; return; }
    var renamed;
    err, strings', renamed, ext' := StringPass(strings, types, ext, memory);
    if err < 0 { return; }
    err, types', ids := TypePasses(renamed, dontResolveFwds, collide, memory);
    named := renamed;
    if err < 0 {
      BlameRenamed(types, renamed, memory, err);
      return;
    }
    OrderlyRenamed(types, renamed);
    MergedSpelt(strings, types, strings', renamed, types', ids, dontResolveFwds);
    if Exact(dontResolveFwds, SpeltGraph(strings, types)) {
      ExactSpelt(strings, types, strings', renamed, types', ids, dontResolveFwds);
    }
  }

  /** What the type passes did to the renumbered graph, told of the types as they came. */
  lemma {:induction false} MergedSpelt(data: Bytes, g: BtfGraph, data': Bytes, g': BtfGraph, f: BtfGraph,
                                       ids: seq<nat>, dontResolve: bool)
    requires GraphOk(g) && NamesRenumbered(data, g, data', g') && TypesDone(g', f, ids, dontResolve)
    ensures TypesMerged(data, g, data', g', f, ids, dontResolve)
  {
    SameShapeMeans(g, g');
    SpeltFacts(data', g', f, ids, dontResolve);
  }

  lemma {:induction false} OrderlyRenamed(g: BtfGraph, g': BtfGraph)
    requires SameShape(g, g') && Passes.NoUnknown(g') && RefsAcyclic(g')
    ensures Passes.NoUnknown(g) && RefsAcyclic(g)
  {
    SameShapeMeans(g, g');
    AcyclicRenamed(g', g);
  }

  lemma {:induction false} ExactSpelt(data: Bytes, g: BtfGraph, data': Bytes, g': BtfGraph, f: BtfGraph,
                                      ids: seq<nat>, dontResolve: bool)
    requires GraphOk(g) && NamesRenumbered(data, g, data', g') && TypesDone(g', f, ids, dontResolve)
    requires Exact(dontResolve, SpeltGraph(data, g))
    ensures MeaningsKept(data, g, data', f, ids)
  {
    SameShapeMeans(g, g');
    if !dontResolve { NothingToResolveSpelt(data', g'); }
    MeaningSpelt(data, g, data', g', f, ids);
    if PlainForwards(g) { IdsSpelt(data', g, SpeltGraph(data, g), g', ids); }
  }

  /** `g'` is `g` with its names renumbered such that equal names share an offset. */
  ghost predicate NamesRenumbered(data: Bytes, g: BtfGraph, data': Bytes, g': BtfGraph) {
    GraphOk(g') && SameShape(g, g') && SpeltGraph(data', g') == SpeltGraph(data, g) && OneOffsetPerName(data', g')
  }

  // ----- failures

  /** The types or the line information refer to something that is no start of a string. */
  ghost predicate BadReference(data: Bytes, types: BtfGraph, ext: seq<nat>) {
    exists off :: off in Slots(types, |types|) + ext && !IsStart(data, off)
  }

  ghost predicate RunBlamed(data: Bytes, types: BtfGraph, ext: seq<nat>, memory: bool, err: int)
    requires GraphOk(types)
  {
    err < 0 ==>
      || (!memory && (err == ENOMEM || err == EINVAL))
      || (err == EINVAL && (BadReference(data, types, ext) || !Passes.NoUnknown(types) || !ProperRefs(types)))
      || (err == ELOOP && !RefsAcyclic(types))
  }

  /** Renamed types fail for what the types as they came are to blame for. */
  lemma {:induction false} BlameRenamed(g: BtfGraph, g': BtfGraph, memory: bool, err: int)
    requires GraphOk(g) && GraphOk(g') && SameShape(g, g') && Passes.PassBlamed(g', memory, err)
    ensures Passes.PassBlamed(g, memory, err)
  {
    SameShapeMeans(g, g');
    forall i | 0 <= i < |g| ensures ComparableRefs(g, i) <==> ComparableRefs(g', i) {
      forall j | 0 <= j < |g[i].refs| ensures Comparable(g, g[i].refs[j]) <==> Comparable(g', g'[i].refs[j]) {}
    }
    if RefsAcyclic(g) { AcyclicRenamed(g, g'); }
  }

  lemma {:induction false} AcyclicRenamed(g: BtfGraph, g': BtfGraph)
    requires SameShape(g, g') && RefsAcyclic(g)
    ensures RefsAcyclic(g')
  {
    SameShapeMeans(g, g');
    var rank: seq<nat> :| RanksRefs(g, rank);
    forall i | 0 <= i < |g'| ensures RanksRefsOf(g', rank, i) { assert RanksRefsOf(g, rank, i); }
    assert RanksRefs(g', rank);
  }

  // ----- forwards, with names spelt out

  /** What the type passes establish of ids, with names spelt out. */
  lemma {:induction false} SpeltFacts(data: Bytes, g: BtfGraph, f: BtfGraph, ids: seq<nat>, dontResolve: bool)
    requires OneOffsetPerName(data, g) && GraphOk(g) && Passes.NoUnknown(g) && InResult(g, f, ids)
    requires Passes.SignaturesFrom(f, g) && Passes.Irredundant(f, PlainForwards(g))
    requires IdsOutcome(g, f, ids, dontResolve)
    ensures SpeltIrredundant(SpeltGraph(data, f), PlainForwards(g))
    ensures IdsOutcome(SpeltGraph(data, g), SpeltGraph(data, f), ids, dontResolve)
  {
    PicturedRelabelled(g, f, SpeltGraph(data, g), SpeltGraph(data, f), Spelt(data), ids);
    IrredundantSpelt(data, g, f, PlainForwards(g));
    ShapesSpelt(data, g, f, ids);
    ForwardsSpelt(data, g, f, ids);
    if !dontResolve { EnumsSpelt(data, g, f, ids); }
  }

  lemma {:induction false} GoneSpelt(data: Bytes, g: BtfGraph, f: BtfGraph, ids: seq<nat>, x: nat, y: nat)
    requires OneOffsetPerName(data, g) && GraphOk(g) && Passes.NoUnknown(g) && InResult(g, f, ids)
    requires x < |g| && y < |g| && ForwardsGone(g, f, ids, x, y)
    ensures ForwardsGone(SpeltGraph(data, g), SpeltGraph(data, f), ids, x, y)
  {
    var gs, fs := SpeltGraph(data, g), SpeltGraph(data, f);
    var fwds, left := ForwardsOf(gs), LeftForwards(gs, fs, ids);
    assert fwds == ForwardsOf(g) && left == LeftForwards(g, f, ids);
    forall i, j | 0 <= i < |g| && 0 <= j < |g| && gs[i].sig == gs[j].sig ensures g[i].sig == g[j].sig {
      SpeltSignature(data, g, i, j);
    }
    forall c: nat, k: nat | c < |g| && k < |g| && SideBySide(gs, fwds, ids, x, y, c, k) && fwds[c] != fwds[k]
      ensures !left[c] && !left[k]
    {
      SideBySideFiner(gs, g, fwds, ids, ids, x, y, c, k);
    }
  }

  lemma {:induction false} HasForwardSpelt(data: Bytes, g: BtfGraph, x: nat)
    requires x < |g| && HasForward(g, g[x].sig)
    ensures HasForward(SpeltGraph(data, g), SpeltGraph(data, g)[x].sig)
  {
    var gs := SpeltGraph(data, g);
    var j :| 0 <= j < |g| && StandsFor(g[j].sig, g[x].sig);
    assert StandsFor(gs[j].sig, gs[x].sig);
  }

  lemma {:induction false} HasEqualSpelt(data: Bytes, g: BtfGraph, f: BtfGraph, ids: seq<nat>, x: nat)
    requires OneOffsetPerName(data, g) && GraphOk(g) && Passes.NoUnknown(g) && InResult(g, f, ids)
    requires x < |g| && HasEqual(g, f, ids, x)
    ensures HasEqual(SpeltGraph(data, g), SpeltGraph(data, f), ids, x)
  {
    if HasForward(g, g[x].sig) {
      HasForwardSpelt(data, g, x);
    } else {
      var y: nat :| y < |g| && SharesWith(g, f, ids, x, y);
      GoneSpelt(data, g, f, ids, x, y);
      assert SharesWith(SpeltGraph(data, g), SpeltGraph(data, f), ids, x, y);
    }
  }

  lemma {:induction false} ForwardsSpelt(data: Bytes, g: BtfGraph, f: BtfGraph, ids: seq<nat>)
    requires OneOffsetPerName(data, g) && GraphOk(g) && Passes.NoUnknown(g) && ForwardsResolved(g, f, ids)
    ensures ForwardsResolved(SpeltGraph(data, g), SpeltGraph(data, f), ids)
  {
    var gs, fs := SpeltGraph(data, g), SpeltGraph(data, f);
    forall x, z | 0 <= x < |g| && 0 <= z < |g| ensures SharedAlike(gs, fs, ids, x, z) {
      assert SharedAlike(g, f, ids, x, z);
      if HasEqual(g, f, ids, x) { HasEqualSpelt(data, g, f, ids, x); }
      if HasEqual(g, f, ids, z) { HasEqualSpelt(data, g, f, ids, z); }
    }
  }

  lemma {:induction false} EnumsSpelt(data: Bytes, g: BtfGraph, f: BtfGraph, ids: seq<nat>)
    requires OneOffsetPerName(data, g) && GraphOk(g) && EnumsResolved(g, f, ids)
    ensures EnumsResolved(SpeltGraph(data, g), SpeltGraph(data, f), ids)
  {
    var gs, fs := SpeltGraph(data, g), SpeltGraph(data, f);
    forall i, j | 0 <= i < |g| && 0 <= j < |g| ensures EnumResolved(gs, fs, ids, i, j) {
      assert EnumResolved(g, f, ids, i, j);
      if InfoKind(gs[i].sig.info) == KIND_ENUM && StandsFor(gs[i].sig, gs[j].sig) { UnspeltEnum(data, g, i, j); }
    }
  }

  lemma {:induction false} UnspeltEnum(data: Bytes, g: BtfGraph, i: nat, j: nat)
    requires OneOffsetPerName(data, g) && GraphOk(g) && i < |g| && j < |g| && IsEnum(g[i])
    requires StandsFor(SpeltGraph(data, g)[i].sig, SpeltGraph(data, g)[j].sig)
    ensures StandsFor(g[i].sig, g[j].sig)
  {
    InfoSplit(g[i].sig.info);
    InfoSplit(g[j].sig.info);
    NamesOf(g, g[i]);
    NamesOf(g, g[j]);
  }

  /** What ids say in any case: every type became one that may take its place and that refers to what
      its types referred to, no forwards are left where they met other types, and unless forwards are
      not to be resolved, forward enums became enums. */
  ghost predicate IdsOutcome<N>(g: Graph<Signature<N>>, f: Graph<Signature<N>>, ids: seq<nat>, dontResolve: bool) {
    && IdsKeepShapes(g, f, ids) && Pictured(g, f, ids) && ForwardsResolved(g, f, ids)
    && (dontResolve || EnumsResolved(g, f, ids))
  }

  /** Every type of `g` became one of `f` that may take its place. */
  ghost predicate IdsKeepShapes<N>(g: Graph<Signature<N>>, f: Graph<Signature<N>>, ids: seq<nat>) {
    |ids| == |g| && forall id :: 0 <= id < |g| ==> ids[id] < |f| && Represents(g, g[id].sig, f[ids[id]].sig)
  }

  lemma {:induction false} ShapesSpelt(data: Bytes, g: BtfGraph, f: BtfGraph, ids: seq<nat>)
    requires IdsKeepShapes(g, f, ids)
    ensures IdsKeepShapes(SpeltGraph(data, g), SpeltGraph(data, f), ids)
  {
    var gs, fs := SpeltGraph(data, g), SpeltGraph(data, f);
    forall id | 0 <= id < |g| ensures Represents(gs, gs[id].sig, fs[ids[id]].sig) {
      if HasForward(g, g[id].sig) {
        var j :| 0 <= j < |g| && StandsFor(g[j].sig, g[id].sig);
        assert StandsFor(gs[j].sig, gs[id].sig);
      }
    }
  }

  /** Names that differ as strings have different offsets. */
  lemma {:induction false} NothingToResolveSpelt(data: Bytes, g: BtfGraph)
    requires NothingToResolve(SpeltGraph(data, g))
    ensures NothingToResolve(g)
  {
    var h := SpeltGraph(data, g);
    forall i, j | 0 <= i < |g| && 0 <= j < |g| ensures Unrelated(g, i, j) {
      assert Unrelated(h, i, j);
    }
  }

  /** The two graphs differ in names only. */
  predicate SameShape(g: BtfGraph, g': BtfGraph) {
    SameReferences(g, g') && forall i :: 0 <= i < |g| ==> g'[i].sig.info == g[i].sig.info
  }

  lemma {:induction false} SameShapeMeans(g: BtfGraph, g': BtfGraph)
    requires SameShape(g, g')
    ensures forall i :: 0 <= i < |g| ==> Kind(g[i]) == Kind(g'[i])
    ensures PlainForwards(g) <==> PlainForwards(g')
    ensures Passes.NoVariables(g) <==> Passes.NoVariables(g')
  {
    assert forall i :: 0 <= i < |g| ==> Kind(g[i]) == Kind(g'[i]) && g[i].refs == g'[i].refs;
  }

  /** What the type passes say about ids, told of the types as they came, with names as strings. */
  lemma {:induction false} IdsSpelt(data: Bytes, g: BtfGraph, h: Graph<Signature<Bytes>>, g': BtfGraph, ids: seq<nat>)
    requires OneOffsetPerName(data, g') && GraphOk(g') && Passes.NoUnknown(g') && SameShape(g, g')
    requires h == SpeltGraph(data, g') && WellFormed(h) && |ids| == |g|
    requires StructsShareIds(g', g', ids)
    requires Passes.NoVariables(g') && NoConflicts(g', g') ==> IdsAreMeanings(g', ids)
    ensures StructsShareIds(h, g, ids)
    ensures Passes.NoVariables(g) && NoConflicts(h, g) ==> IdsAreMeanings(h, ids)
  {
    SameShapeMeans(g, g');
    SharedIdsSpelt(data, g, h, g', ids);
    if Passes.NoVariables(g) && NoConflicts(h, g) {
      NoConflictsRenamed(data, g, h, g');
      MeaningsSpelt(data, g', ids);
    }
  }

  /** Pass 1 on the whole state: the string section, the types and the line information. */
  method StringPass(strings: Bytes, types: BtfGraph, ext: seq<nat>, memory: bool)
      returns (err: int, strings': Bytes, renamed: BtfGraph, ext': seq<nat>)
    requires Section(strings) && GraphOk(types) && types[0].sig.name == 0 && types[0].sig.names == []
    ensures err == OK || (err == ENOMEM && !memory) || (err == EINVAL && BadReference(strings, types, ext))
    ensures err == OK ==> !BadReference(strings, types, ext)
    ensures err == OK ==> StringsKept(strings, types, ext, strings', renamed, ext')
  {
    renamed, ext' := types, ext;
    var slots := Slots(types, |types|);
    var w;
    err, strings', w := DedupStrings(strings, slots + ext, memory);
    if err < 0 { return; }
    var n := |slots|;
    ext' := w[n..];
    NamesKept(strings, slots, ext, strings', w);
    renamed := StoreSlots(types, w[..n]);
    Renumbered(strings, types, ext, strings', w, renamed);
  }

  /** New string references that preserve the strings renumber the names. */
  lemma {:induction false} Renumbered(data: Bytes, g: BtfGraph, ext: seq<nat>, data': Bytes, w: seq<nat>, g': BtfGraph)
    requires GraphOk(g) && g[0].sig.name == 0 && g[0].sig.names == [] && |g'| == |g| && g'[0] == g[0]
    requires Preserved(data, Slots(g, |g|) + ext, data', w) && Trimmed(data', w)
    requires forall i :: 0 < i < |g| ==> StoredSlots(g, w[..|Slots(g, |g|)|], g'[i], i)
    ensures NamesRenumbered(data, g, data', g') && Trimmed(data', Slots(g', |g'|) + w[|Slots(g, |g|)|..])
  {
    var slots := Slots(g, |g|);
    var n := |slots|;
    NamesKept(data, slots, ext, data', w);
    SpeltUnchanged(data, data', g, g', w[..n]);
    StoredGraphOk(g, w[..n], g');
    StoredNamesDistinct(data, slots, ext, data', w, g, g');
    SlotsRestored(g, w, g');
  }

  lemma {:induction false} SlotsRestored(g: BtfGraph, w: seq<nat>, g': BtfGraph)
    requires |g'| == |g| && |w| >= |Slots(g, |g|)|
    requires forall i :: 0 < i < |g| ==> StoredSlots(g, w[..|Slots(g, |g|)|], g'[i], i)
    ensures Slots(g', |g'|) + w[|Slots(g, |g|)|..] == w
  {
    SlotsStored(g, w[..|Slots(g, |g|)|], g', |g|);
  }

  /** Stored slots are the slots of the types that took them. */
  lemma {:induction false} SlotsStored(g: BtfGraph, w: seq<nat>, g': BtfGraph, n: nat)
    requires |g| == |g'| && n <= |g| && |w| == |Slots(g, |g|)|
    requires forall i :: 0 < i < |g| ==> StoredSlots(g, w, g'[i], i)
    ensures |Slots(g, n)| <= |w| && Slots(g', n) == w[..|Slots(g, n)|]
    decreases n
  {
    SlotsMonotone(g, n, |g|);
    if n > 1 {
      SlotsStored(g, w, g', n - 1);
      assert StoredSlots(g, w, g'[n - 1], n - 1);
      var lo, hi := |Slots(g, n - 1)|, |Slots(g, n)|;
      RenamedSlots(g[n - 1], w[lo..hi]);
      assert w[..hi] == w[..lo] + w[lo..hi];
    }
  }

  /** What passes 2 to 6 have done when they succeed. */
  ghost predicate TypesDone(g: BtfGraph, f: BtfGraph, ids: seq<nat>, dontResolve: bool)
    requires GraphOk(g)
  {
    && WellFormed(f) && |f| <= |g| && InResult(g, f, ids)
    && Passes.Irredundant(f, PlainForwards(g)) && Passes.SignaturesFrom(f, g)
    && Passes.NoUnknown(g) && RefsAcyclic(g)
    && IdsOutcome(g, f, ids, dontResolve) && StructsCompared(g, ids, Exact(dontResolve, g))
    && (Exact(dontResolve, g) ==> ExactIds(g, f, ids))
  }

  /** What ids mean when no forwards are resolved. */
  ghost predicate ExactIds(g: BtfGraph, f: BtfGraph, ids: seq<nat>)
    requires WellFormed(g) && WellFormed(f) && InResult(g, f, ids)
  {
    && (forall id :: 0 <= id < |g| ==> Same(g, id, f, ids[id]))
    && (PlainForwards(g) ==> StructsShareIds(g, g, ids))
    && (PlainForwards(g) && Passes.NoVariables(g) && NoConflicts(g, g) ==> IdsAreMeanings(g, ids))
  }

  /** Passes 2 to 6 on a fresh deduplication state. */
  method TypePasses(types: BtfGraph, dontResolveFwds: bool, collide: bool, memory: bool)
      returns (err: int, types': BtfGraph, ghost ids: seq<nat>)
    requires GraphOk(types)
    ensures err <= 0 && Passes.PassBlamed(types, memory, err)
    ensures err == OK ==> TypesDone(types, types', ids, dontResolveFwds)
  {
    var d := new Passes.BtfDedup(types, dontResolveFwds, collide, memory);
    err := d.DedupTypes();
    types', ids := d.types, [];
    if err == OK {
      ids := FinalIds(d.canon);
      TypesAreDone(types, d.canon, types', dontResolveFwds, d.exact);
    }
  }

  ghost function FinalIds(m: seq<nat>): (ids: seq<nat>)
    requires Forest(m)
    ensures |ids| == |m| && forall id :: 0 <= id < |m| ==> ids[id] == Passes.FinalId(m, id)
  {
    seq(|m|, id requires 0 <= id < |m| => Passes.FinalId(m, id))
  }

  lemma {:induction false} TypesAreDone(g: BtfGraph, m: seq<nat>, f: BtfGraph, dontResolve: bool, exact: bool)
    requires GraphOk(g) && |m| == |g| && Forest(m) && Passes.AllMapped(m) && WellFormed(f)
    requires |f| == 1 + Passes.SelfCount(m, |m|) && exact == Exact(dontResolve, g)
    requires Passes.Irredundant(f, PlainForwards(g)) && Passes.SignaturesFrom(f, g)
    requires Passes.NoUnknown(g) && RefsAcyclic(g) && OutcomeOfMap(g, m, f, dontResolve, exact)
    requires exact ==> ExactMap(g, m, f)
    ensures TypesDone(g, f, FinalIds(m), dontResolve)
  {
    Passes.SelfCountBounds(m, |m|, |m|);
    OutcomeFromMap(g, m, f, FinalIds(m), dontResolve, exact);
    if exact { ExactFromMap(g, m, f, FinalIds(m)); }
  }

  /** What the passes say of the canonical map in any case. */
  ghost predicate OutcomeOfMap(g: BtfGraph, m: seq<nat>, f: BtfGraph, dontResolve: bool, exact: bool)
    requires GraphOk(g) && Forest(m)
  {
    && Passes.FinalSignatures(g, m, f) && Passes.FinalReferences(g, m, f) && Passes.ShapesKept(g, m, f)
    && Partnered(g, m) && StructsRefused(g, m, |g|, exact) && (dontResolve || Passes.EnumsFollow(g, m))
  }

  /** What they say when no forwards are resolved. */
  ghost predicate ExactMap(g: BtfGraph, m: seq<nat>, f: BtfGraph)
    requires WellFormed(g) && WellFormed(f) && |m| == |g| && Forest(m)
  {
    && (forall id :: 0 <= id < |g| ==> Passes.FinalId(m, id) < |f| && Same(g, id, f, Passes.FinalId(m, id)))
    && (PlainForwards(g) ==> Passes.StructsJoin(g, m))
    && (PlainForwards(g) && Passes.NoVariables(g) && Passes.ConflictFree(g) ==> Passes.OneIdPerMeaning(g, m))
  }

  lemma {:induction false} ExactFromMap(g: BtfGraph, m: seq<nat>, f: BtfGraph, ids: seq<nat>)
    requires WellFormed(g) && WellFormed(f) && |m| == |g| == |ids| && Forest(m) && ExactMap(g, m, f)
    requires forall id :: 0 <= id < |g| ==> ids[id] == Passes.FinalId(m, id)
    ensures InResult(g, f, ids) && ExactIds(g, f, ids)
  {
    if PlainForwards(g) { ShareFromJoin(g, m, ids); }
  }

  /** What is known of a canonical map holds of the ids that it gives. */
  lemma {:induction false} OutcomeFromMap(g: BtfGraph, m: seq<nat>, f: BtfGraph, ids: seq<nat>, dontResolve: bool,
                                          exact: bool)
    requires GraphOk(g) && |m| == |g| && IdsOf(m, ids) && Passes.AllMapped(m)
    requires OutcomeOfMap(g, m, f, dontResolve, exact)
    ensures IdsOutcome(g, f, ids, dontResolve) && StructsCompared(g, ids, exact)
  {
    assert InResult(g, f, ids) && IdsKeepShapes(g, f, ids);
    ResolvedFromMap(g, m, f, ids);
    ComparedFromMap(g, m, ids, exact);
    PicturedFromMap(g, m, f, ids);
    if !dontResolve { EnumsFromMap(g, m, f, ids); }
  }

  lemma NamesKept(data: Bytes, slots: seq<nat>, ext: seq<nat>, data': Bytes, w: seq<nat>)
    requires Preserved(data, slots + ext, data', w)
    ensures |w| == |slots| + |ext|
    ensures forall j :: 0 <= j < |slots| ==> Text(data', w[..|slots|][j]) == Text(data, slots[j])
    ensures forall j :: 0 <= j < |ext| ==> Text(data', w[|slots|..][j]) == Text(data, ext[j])
  {
    var all := slots + ext;
    forall j | 0 <= j < |ext| ensures Text(data', w[|slots|..][j]) == Text(data, ext[j]) {
      assert all[|slots| + j] == ext[j] && w[|slots|..][j] == w[|slots| + j];
    }
    forall j | 0 <= j < |slots| ensures Text(data', w[..|slots|][j]) == Text(data, slots[j]) {
      assert all[j] == slots[j] && w[..|slots|][j] == w[j];
    }
  }

  lemma MeaningSpelt(data: Bytes, g: BtfGraph, data': Bytes, g': BtfGraph, f: BtfGraph, ids: seq<nat>)
    requires WellFormed(g) && WellFormed(g') && WellFormed(f) && |g'| == |g| == |ids|
    requires SpeltGraph(data', g') == SpeltGraph(data, g)
    requires forall id :: 0 <= id < |g| ==> ids[id] < |f| && Same(g', id, f, ids[id])
    ensures WellFormed(SpeltGraph(data, g)) && WellFormed(SpeltGraph(data', f))
    ensures forall id :: 0 <= id < |g| ==> Same(SpeltGraph(data, g), id, SpeltGraph(data', f), ids[id])
  {
    SpeltWellFormed(data, g);
    SpeltWellFormed(data', f);
    forall id | 0 <= id < |g| ensures Same(SpeltGraph(data, g), id, SpeltGraph(data', f), ids[id]) {
      SameSpelt(data', g', id, f, ids[id]);
    }
  }
}
