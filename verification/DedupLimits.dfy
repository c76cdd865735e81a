/**
 When the equivalence check refuses types of equal meaning.

 The check walks two graphs in parallel and records one candidate id for each canonical id it
 meets.  It refuses types of equal meaning exactly when two different candidate ids meet one
 canonical id, which takes duplicates on the candidate's side.
 */
module DedupLimits {
  import opened TypeGraph
  import opened CanonicalMap
  import opened BtfTypes
  import opened BtfSamples
  import opened DedupSpec

  /** The type field of a forward is 0, as the format has it. */
  predicate PlainForwards(g: BtfGraph) {
    forall i :: 0 <= i < |g| && IsFwd(g[i]) ==> g[i].refs == [0]
  }

  ghost predicate Apart(m: seq<nat>, c: nat, k: nat)
    requires Forest(m) && c < |m| && k < |m|
  {
    Resolve(m, c) != Resolve(m, k)
  }

  /** The `i`-th pair of a parallel walk: a child pair of the one before, and not resolved to one id. */
  ghost predicate WalkStep(g: BtfGraph, m: seq<nat>, walk: seq<(nat, nat)>, i: nat)
    requires |m| == |g| && Forest(m) && i < |walk|
  {
    && walk[i].0 < |g| && walk[i].1 < |g| && Apart(m, walk[i].0, walk[i].1)
    && (i > 0 ==>
          && walk[i - 1].0 < |g| && walk[i - 1].1 < |g|
          && IsChildPair(g[walk[i - 1].0], g[walk[i - 1].1], walk[i].0, walk[i].1))
  }

  /** A parallel walk from `x` and `y` on which no pair resolves to one id. */
  ghost predicate Walk(g: BtfGraph, m: seq<nat>, x: nat, y: nat, walk: seq<(nat, nat)>)
    requires |m| == |g| && Forest(m)
  {
    walk != [] && walk[0] == (x, y) && forall i :: 0 <= i < |walk| ==> WalkStep(g, m, walk, i)
  }

  /** Some such walk ends in `c` and `k`. */
  ghost predicate Meets(g: BtfGraph, m: seq<nat>, x: nat, y: nat, c: nat, k: nat)
    requires |m| == |g| && Forest(m)
  {
    exists walk :: Walk(g, m, x, y, walk) && walk[|walk| - 1] == (c, k)
  }

  /** Two different ids reached from `x` meet one id reached from `y`. */
  ghost predicate Conflict(g: BtfGraph, m: seq<nat>, x: nat, y: nat)
    requires |m| == |g| && Forest(m)
  {
    exists c: nat, d: nat, k: nat :: Meets(g, m, x, y, c, k) && Meets(g, m, x, y, d, k) && c != d
  }

  // ----- a conflict rules out every closed map

  /** A closed map that settles the pair records every pair of a walk. */
  lemma {:induction false} ClosedMapRecords(g: BtfGraph, m: seq<nat>, want: seq<nat>, x: nat, y: nat,
                                            walk: seq<(nat, nat)>, i: nat)
    requires GraphOk(g) && SoundMap(g, m) && Forest(m) && |want| == |g|
    requires ClosedExcept(g, m, want, {}, true) && Settled(g, m, want, x, y)
    requires Walk(g, m, x, y, walk) && i < |walk|
    ensures walk[i].1 < |g| && want[walk[i].1] == walk[i].0
    decreases i
  {
    assert WalkStep(g, m, walk, i);
    FwdTargetStays(g, m, walk[i].1);
    if i > 0 {
      ClosedMapRecords(g, m, want, x, y, walk, i - 1);
      assert PairClosed(g, m, want, walk[i - 1].1, true);
      assert Settled(g, m, want, walk[i].0, walk[i].1);
    }
  }

  lemma {:induction false} ConflictRefuses(g: BtfGraph, m: seq<nat>, x: nat, y: nat)
    requires GraphOk(g) && SoundMap(g, m) && Forest(m) && Conflict(g, m, x, y)
    ensures Unsettleable(g, m, x, y, true)
  {
    var c: nat, d: nat, k: nat :| Meets(g, m, x, y, c, k) && Meets(g, m, x, y, d, k) && c != d;
    var v :| Walk(g, m, x, y, v) && v[|v| - 1] == (c, k);
    var w :| Walk(g, m, x, y, w) && w[|w| - 1] == (d, k);
    forall want | |want| == |g| && ClosedExcept(g, m, want, {}, true) ensures !Settled(g, m, want, x, y) {
      if Settled(g, m, want, x, y) {
        ClosedMapRecords(g, m, want, x, y, v, |v| - 1);
        ClosedMapRecords(g, m, want, x, y, w, |w| - 1);
      }
    }
  }

  // ----- without a conflict the met pairs make a closed map

  lemma {:induction false} WalkMeansSame(g: BtfGraph, m: seq<nat>, x: nat, y: nat, walk: seq<(nat, nat)>, i: nat)
    requires WellFormed(g) && |m| == |g| && Forest(m) && x < |g| && y < |g| && Same(g, x, g, y)
    requires Walk(g, m, x, y, walk) && i < |walk|
    ensures walk[i].0 < |g| && walk[i].1 < |g| && Same(g, walk[i].0, g, walk[i].1)
    decreases i
  {
    assert WalkStep(g, m, walk, i);
    if i > 0 {
      WalkMeansSame(g, m, x, y, walk, i - 1);
      SameChildPair(g, walk[i - 1].0, walk[i - 1].1, walk[i].0, walk[i].1);
    }
  }

  lemma {:induction false} MetMeansSame(g: BtfGraph, m: seq<nat>, x: nat, y: nat, c: nat, k: nat)
    requires WellFormed(g) && |m| == |g| && Forest(m) && x < |g| && y < |g| && Same(g, x, g, y)
    requires Meets(g, m, x, y, c, k)
    ensures c < |g| && k < |g| && Same(g, c, g, k)
  {
    var walk: seq<(nat, nat)> :| Walk(g, m, x, y, walk) && walk[|walk| - 1] == (c, k);
    WalkMeansSame(g, m, x, y, walk, |walk| - 1);
  }

  lemma {:induction false} MetInRange(g: BtfGraph, m: seq<nat>, x: nat, y: nat, c: nat, k: nat)
    requires |m| == |g| && Forest(m) && Meets(g, m, x, y, c, k)
    ensures c < |g| && k < |g|
  {
    var walk: seq<(nat, nat)> :| Walk(g, m, x, y, walk) && walk[|walk| - 1] == (c, k);
    assert WalkStep(g, m, walk, |walk| - 1);
  }

  lemma {:induction false} SameChildPair(g: BtfGraph, a: nat, b: nat, c: nat, k: nat)
    requires WellFormed(g) && a < |g| && b < |g| && Same(g, a, g, b) && IsChildPair(g[a], g[b], c, k)
    ensures c < |g| && k < |g| && Same(g, c, g, k)
  {
    var j :| 0 <= j < |g[a].refs| && j < |g[b].refs| && g[a].refs[j] == c && g[b].refs[j] == k;
    SameKids(g, a, g, b, j);
  }

  /** The map that records for each canonical id the candidate it meets. */
  ghost function MetMap(g: BtfGraph, m: seq<nat>, x: nat, y: nat): (want: seq<nat>)
    requires |m| == |g| && Forest(m)
    ensures |want| == |g|
  {
    seq(|g|, k requires 0 <= k < |g| => MetBy(g, m, x, y, k))
  }

  ghost function MetBy(g: BtfGraph, m: seq<nat>, x: nat, y: nat, k: nat): nat
    requires |m| == |g| && Forest(m)
  {
    if exists c: nat :: Meets(g, m, x, y, c, k) then
      var c: nat :| Meets(g, m, x, y, c, k);
      c
    else BTF_UNPROCESSED_ID
  }

  lemma {:induction false} MetRecorded(g: BtfGraph, m: seq<nat>, x: nat, y: nat, c: nat, k: nat)
    requires |m| == |g| && Forest(m) && !Conflict(g, m, x, y) && Meets(g, m, x, y, c, k)
    ensures k < |g| && c < |g| && MetMap(g, m, x, y)[k] == c
  {
    MetInRange(g, m, x, y, c, k);
    assert Meets(g, m, x, y, MetBy(g, m, x, y, k), k);
  }

  lemma {:induction false} MetAtOnce(g: BtfGraph, m: seq<nat>, x: nat, y: nat)
    requires |m| == |g| && Forest(m) && x < |g| && y < |g| && Apart(m, x, y)
    ensures Meets(g, m, x, y, x, y)
  {
    var walk := [(x, y)];
    assert Walk(g, m, x, y, walk) && walk[|walk| - 1] == (x, y);
  }

  /** What is met after one more step. */
  lemma {:induction false} MetNext(g: BtfGraph, m: seq<nat>, x: nat, y: nat, c: nat, k: nat, j: nat)
    requires WellFormed(g) && |m| == |g| && Forest(m) && Meets(g, m, x, y, c, k)
    requires c < |g| && k < |g| && j < |g[c].refs| && j < |g[k].refs| && Apart(m, g[c].refs[j], g[k].refs[j])
    ensures Meets(g, m, x, y, g[c].refs[j], g[k].refs[j])
  {
    var walk: seq<(nat, nat)> :| Walk(g, m, x, y, walk) && walk[|walk| - 1] == (c, k);
    var longer := walk + [(g[c].refs[j], g[k].refs[j])];
    assert IsChildPair(g[c], g[k], g[c].refs[j], g[k].refs[j]);
    forall i | 0 <= i < |longer| ensures WalkStep(g, m, longer, i) {
      if i < |walk| { assert WalkStep(g, m, walk, i); }
    }
    assert Walk(g, m, x, y, longer) && longer[|longer| - 1] == (g[c].refs[j], g[k].refs[j]);
  }

  lemma {:induction false} MetPairClosed(g: BtfGraph, m: seq<nat>, x: nat, y: nat, c: nat, k: nat)
    requires GraphOk(g) && SoundMap(g, m) && Forest(m) && PlainForwards(g)
    requires x < |g| && y < |g| && Same(g, x, g, y) && !Conflict(g, m, x, y) && Meets(g, m, x, y, c, k)
    ensures k < |g| && PairClosed(g, m, MetMap(g, m, x, y), k, true)
  {
    var want := MetMap(g, m, x, y);
    MetRecorded(g, m, x, y, c, k);
    MetMeansSame(g, m, x, y, c, k);
    SameLabel(g, c, g, k);
    assert IsFwd(g[c]) ==> g[c] == g[k];
    forall j | 0 <= j < |g[k].refs| ensures Settled(g, m, want, g[c].refs[j], g[k].refs[j]) {
      var cj, kj := g[c].refs[j], g[k].refs[j];
      FwdTargetStays(g, m, kj);
      if Apart(m, cj, kj) {
        MetNext(g, m, x, y, c, k, j);
        MetRecorded(g, m, x, y, cj, kj);
      }
    }
  }

  lemma {:induction false} MetMapClosed(g: BtfGraph, m: seq<nat>, x: nat, y: nat)
    requires GraphOk(g) && SoundMap(g, m) && Forest(m) && PlainForwards(g)
    requires x < |g| && y < |g| && Same(g, x, g, y) && !Conflict(g, m, x, y)
    ensures ClosedExcept(g, m, MetMap(g, m, x, y), {}, true)
  {
    var want := MetMap(g, m, x, y);
    forall k | 0 <= k < |g| && want[k] <= BTF_MAX_NR_TYPES ensures PairClosed(g, m, want, k, true) {
      var c := MetBy(g, m, x, y, k);
      assert Meets(g, m, x, y, c, k);
      MetPairClosed(g, m, x, y, c, k);
    }
  }

  lemma {:induction false} MetMapSettles(g: BtfGraph, m: seq<nat>, x: nat, y: nat)
    requires GraphOk(g) && SoundMap(g, m) && Forest(m) && x < |g| && y < |g| && !Conflict(g, m, x, y)
    ensures Settled(g, m, MetMap(g, m, x, y), x, y)
  {
    FwdTargetStays(g, m, y);
    if Apart(m, x, y) {
      MetAtOnce(g, m, x, y);
      MetRecorded(g, m, x, y, x, y);
    }
  }

  // ----- when a pair can be settled

  /** A settled pair of a closed map means the same. */
  lemma {:induction false} SettledMeansSame(g: BtfGraph, m: seq<nat>, want: seq<nat>, x: nat, y: nat)
    requires GraphOk(g) && SoundMap(g, m) && Forest(m) && |want| == |g|
    requires ClosedExcept(g, m, want, {}, true) && Settled(g, m, want, x, y)
    ensures x < |g| && y < |g| && Same(g, x, g, y)
  {
    SettledMatched(g, m, want, x, y);
    ClosedMapSound(g, m, want);
    assert Same(g, y, g, x);
    forall n: nat ensures Unfold(g, x, n) == Unfold(g, y, n) { assert Unfold(g, y, n) == Unfold(g, x, n); }
  }

  /** The equivalence check, from a cleared map and without forward resolution, can only refuse types
      that differ in meaning or are in conflict, and has to refuse those. */
  lemma {:induction false} RefusedIff(g: BtfGraph, m: seq<nat>, x: nat, y: nat)
    requires GraphOk(g) && SoundMap(g, m) && Forest(m) && PlainForwards(g) && x < |g| && y < |g|
    ensures Unsettleable(g, m, x, y, true) <==> !Same(g, x, g, y) || Conflict(g, m, x, y)
  {
    if Conflict(g, m, x, y) {
      ConflictRefuses(g, m, x, y);
    } else if Same(g, x, g, y) {
      MetMapClosed(g, m, x, y);
      MetMapSettles(g, m, x, y);
    } else {
      forall want | |want| == |g| && ClosedExcept(g, m, want, {}, true) ensures !Settled(g, m, want, x, y) {
        if Settled(g, m, want, x, y) { SettledMeansSame(g, m, want, x, y); }
      }
    }
  }

  // ----- conflicts without a canonical map

  /** A canonical map in which nothing is mapped. */
  ghost function Blank(n: nat): (m: seq<nat>)
    ensures |m| == n && Forest(m) && forall i :: 0 <= i < n ==> m[i] == BTF_UNPROCESSED_ID
  {
    LinklessForest(seq(n, i => BTF_UNPROCESSED_ID));
    seq(n, i => BTF_UNPROCESSED_ID)
  }

  /** Two different ids reached from `x` meet one id reached from `y`, on parallel walks whose pairs
      all differ: the types that `x` refers to contain duplicates. */
  ghost predicate OwnConflict(g: BtfGraph, x: nat, y: nat) {
    Conflict(g, Blank(|g|), x, y)
  }

  lemma {:induction false} MeetsOwn(g: BtfGraph, m: seq<nat>, x: nat, y: nat, c: nat, k: nat)
    requires |m| == |g| && Forest(m) && Meets(g, m, x, y, c, k)
    ensures Meets(g, Blank(|g|), x, y, c, k)
  {
    var walk: seq<(nat, nat)> :| Walk(g, m, x, y, walk) && walk[|walk| - 1] == (c, k);
    forall i | 0 <= i < |walk| ensures WalkStep(g, Blank(|g|), walk, i) {
      assert WalkStep(g, m, walk, i);
      ResolveStep(Blank(|g|), walk[i].0);
      ResolveStep(Blank(|g|), walk[i].1);
    }
    assert Walk(g, Blank(|g|), x, y, walk);
  }

  /** Whatever the canonical map, a conflict is one of the graph itself. */
  lemma {:induction false} ConflictIsOwn(g: BtfGraph, m: seq<nat>, x: nat, y: nat)
    requires |m| == |g| && Forest(m) && Conflict(g, m, x, y)
    ensures OwnConflict(g, x, y)
  {
    var c: nat, d: nat, k: nat :| Meets(g, m, x, y, c, k) && Meets(g, m, x, y, d, k) && c != d;
    MeetsOwn(g, m, x, y, c, k);
    MeetsOwn(g, m, x, y, d, k);
  }

  /** The two graphs have the same references. */
  predicate SameReferences(g: BtfGraph, h: BtfGraph) {
    |g| == |h| && forall i :: 0 <= i < |g| ==> g[i].refs == h[i].refs
  }

  lemma {:induction false} OwnConflictTransfer(g: BtfGraph, h: BtfGraph, x: nat, y: nat)
    requires SameReferences(g, h) && OwnConflict(g, x, y)
    ensures OwnConflict(h, x, y)
  {
    var m := Blank(|g|);
    var c: nat, d: nat, k: nat :| Meets(g, m, x, y, c, k) && Meets(g, m, x, y, d, k) && c != d;
    MeetsTransfer(g, h, m, x, y, c, k);
    MeetsTransfer(g, h, m, x, y, d, k);
    assert Blank(|h|) == m;
  }

  lemma {:induction false} MeetsTransfer(g: BtfGraph, h: BtfGraph, m: seq<nat>, x: nat, y: nat, c: nat, k: nat)
    requires SameReferences(g, h) && |m| == |g| && Forest(m) && Meets(g, m, x, y, c, k)
    ensures Meets(h, m, x, y, c, k)
  {
    var walk: seq<(nat, nat)> :| Walk(g, m, x, y, walk) && walk[|walk| - 1] == (c, k);
    forall i | 0 <= i < |walk| ensures WalkStep(h, m, walk, i) {
      assert WalkStep(g, m, walk, i);
      if i > 0 { ChildPairTransfer(g, h, walk[i - 1].0, walk[i - 1].1, walk[i].0, walk[i].1); }
    }
    assert Walk(h, m, x, y, walk);
  }

  lemma {:induction false} ChildPairTransfer(g: BtfGraph, h: BtfGraph, a: nat, b: nat, c: nat, k: nat)
    requires SameReferences(g, h) && a < |g| && b < |g| && IsChildPair(g[a], g[b], c, k)
    ensures IsChildPair(h[a], h[b], c, k)
  {
    var j :| 0 <= j < |g[a].refs| && j < |g[b].refs| && g[a].refs[j] == c && g[b].refs[j] == k;
    assert h[a].refs[j] == c && h[b].refs[j] == k;
  }

  // ----- an input

  function Struct(a: nat, b: nat): BtfType { Struct2(5, (7, 9), a, b) }

  /** A struct with two pointers to one type, and the same struct written with the pointer type twice. */
  function TwoPointers(): BtfGraph {
    [Void(), Int(), Ptr(1), Struct(2, 2), Ptr(1), Ptr(1), Struct(4, 5)]
  }

  /** The canonical map when the second struct is looked at. */
  function FirstStructPlaced(): seq<nat> {
    [0, 1, BTF_UNPROCESSED_ID, 3, BTF_UNPROCESSED_ID, BTF_UNPROCESSED_ID, BTF_UNPROCESSED_ID]
  }

  lemma TwoPointersOk()
    ensures GraphOk(TwoPointers()) && PlainForwards(TwoPointers())
  {
    SampleKinds();
    var g := TwoPointers();
    forall i | 0 <= i < |g| ensures Layout(g[i]) && !IsFwd(g[i]) { assert i in {0, 1, 2, 3, 4, 5, 6}; }
  }

  lemma FirstStructPlacedOk()
    ensures Forest(FirstStructPlaced()) && SoundMap(TwoPointers(), FirstStructPlaced())
    ensures forall i :: 0 <= i < 7 ==> Resolve(FirstStructPlaced(), i) == i
  {
    TwoPointersOk();
    LinklessForest(FirstStructPlaced());
    forall i | 0 <= i < 7 ensures Resolve(FirstStructPlaced(), i) == i { ResolveStep(FirstStructPlaced(), i); }
  }

  lemma StructsMeanSame()
    ensures WellFormed(TwoPointers()) && Same(TwoPointers(), 6, TwoPointers(), 3)
  {
    var g, pairs := TwoPointers(), map[6 := 3, 4 := 2, 5 := 2];
    TwoPointersOk();
    assert Matched(g, pairs, 1, 1);
    assert PairMatches(g, pairs, 4) && PairMatches(g, pairs, 5) && PairMatches(g, pairs, 6);
    BisimulationSound(g, pairs);
  }

  /** Two structs of equal meaning that the check refuses: pointers 4 and 5 both meet pointer 2. */
  lemma EqualMeaningRefused()
    ensures var g, m := TwoPointers(), FirstStructPlaced();
            GraphOk(g) && SoundMap(g, m) && Forest(m) && Same(g, 6, g, 3) && Unsettleable(g, m, 6, 3, true)
  {
    var g, m := TwoPointers(), FirstStructPlaced();
    TwoPointersOk();
    FirstStructPlacedOk();
    StructsMeanSame();
    MetAtOnce(g, m, 6, 3);
    assert g[6].refs == [4, 5] && g[3].refs == [2, 2];
    MetNext(g, m, 6, 3, 6, 3, 0);
    MetNext(g, m, 6, 3, 6, 3, 1);
    assert Meets(g, m, 6, 3, 4, 2) && Meets(g, m, 6, 3, 5, 2);
    ConflictRefuses(g, m, 6, 3);
  }
}
