/**
 Two structs of one name and different members that merging joins, through a forward that the
 equivalence check met against both.
 */
module DedupMixed {
  import opened TypeGraph
  import opened CanonicalMap
  import opened BtfTypes
  import opened BtfSamples
  import opened DedupSpec
  import opened DedupMerge

  /** `struct T` with one integer member. */
  function Small(member: nat): BtfType { Struct1(5, member, 1) }

  function Forward(): BtfType { StructFwd(5) }

  /** `struct X` with two members. */
  function Pair(a: nat, b: nat): BtfType { Struct2(7, (9, 11), a, b) }

  /** Type 3 points to the structs 9 and 2, type 7 twice to the forward 8. */
  function Types(): BtfGraph {
    [Void(), Int(), Small(13), Pair(4, 5), Ptr(9), Ptr(2), Ptr(8), Pair(6, 6), Forward(),
     Small(15)]
  }

  /** The canonical map when type 7 is looked at. */
  function Canon(): seq<nat> {
    var u := BTF_UNPROCESSED_ID;
    [0, 1, 2, 3, u, u, u, u, 8, u]
  }

  /** What the check of 7 against 3 records, and in which order. */
  function Hypot(): seq<nat> {
    var u := BTF_UNPROCESSED_ID;
    [u, u, 8, 7, 6, 6, u, u, u, 8]
  }

  function List(): seq<nat> { [3, 4, 9, 5, 2] }

  lemma Kinds()
    ensures Layout(Int()) && Layout(Ptr(2)) && Layout(Ptr(8)) && Layout(Ptr(9)) && Layout(Forward())
    ensures Layout(Small(13)) && Layout(Small(15)) && Layout(Pair(4, 5)) && Layout(Pair(6, 6))
    ensures IsComposite(Small(13)) && IsComposite(Small(15)) && IsComposite(Pair(4, 5)) && IsComposite(Pair(6, 6))
    ensures IsFwd(Forward()) && FwdKind(Forward()) == KIND_STRUCT
    ensures Kind(Int()) == KIND_INT && Kind(Ptr(2)) == Kind(Ptr(8)) == Kind(Ptr(9)) == KIND_PTR
  {
    SampleKinds();
  }

  lemma {:induction false} TypesOk()
    ensures GraphOk(Types())
  {
    Kinds();
    var g := Types();
    assert Layout(g[0]);
    forall i | 0 <= i < |g| ensures Layout(g[i]) && forall j :: 0 <= j < |g[i].refs| ==> g[i].refs[j] < |g| {
      assert i in {0, 1, 2, 3, 4, 5, 6, 7, 8, 9};
    }
  }

  lemma {:induction false} CanonOk()
    ensures Forest(Canon()) && forall i :: 0 <= i < 10 ==> Resolve(Canon(), i) == i
  {
    var m := Canon();
    LinklessForest(m);
    forall i | 0 <= i < 10 ensures Resolve(m, i) == i { ResolveStep(m, i); }
  }

  lemma {:induction false} StructPairClosed()
    ensures GraphOk(Types()) && Forest(Canon()) && PairClosed(Types(), Canon(), Hypot(), 3, false)
    ensures Settled(Types(), Canon(), Hypot(), 7, 3)
  {
    TypesOk();
    CanonOk();
    var g, m, hyp := Types(), Canon(), Hypot();
    Kinds();
    assert Settled(g, m, hyp, 6, 4) && Settled(g, m, hyp, 6, 5);
  }

  lemma {:induction false} PointerPairsClosed()
    ensures GraphOk(Types()) && Forest(Canon())
    ensures PairClosed(Types(), Canon(), Hypot(), 4, false) && PairClosed(Types(), Canon(), Hypot(), 5, false)
  {
    Kinds();
    TypesOk();
    CanonOk();
    assert Settled(Types(), Canon(), Hypot(), 8, 9) && Settled(Types(), Canon(), Hypot(), 8, 2);
  }

  lemma {:induction false} ForwardPairsClosed()
    ensures GraphOk(Types()) && Forest(Canon())
    ensures PairClosed(Types(), Canon(), Hypot(), 2, false) && PairClosed(Types(), Canon(), Hypot(), 9, false)
  {
    Kinds();
    TypesOk();
    CanonOk();
    assert FwdMatches(Forward(), Small(13)) && FwdMatches(Forward(), Small(15));
  }

  /** The recorded pairs are closed, so the check answers that 7 and 3 are equivalent. */
  lemma {:induction false} PairsClosed()
    ensures GraphOk(Types()) && Forest(Canon())
    ensures ClosedExcept(Types(), Canon(), Hypot(), {}, false) && Settled(Types(), Canon(), Hypot(), 7, 3)
  {
    StructPairClosed();
    PointerPairsClosed();
    ForwardPairsClosed();
  }

  /** The canonical map after the first pair, and after the third. */
  function AfterPair(): seq<nat> { Canon()[7 := 3] }
  function AfterForward(): seq<nat> { AfterPair()[8 := 9] }

  lemma {:induction false} StructsMerged()
    ensures |Types()| == |Canon()| && Forest(Canon())
    ensures MergedPair(Types(), Canon(), 3, 7) == AfterPair()
  {
    Kinds();
    CanonOk();
  }

  /** Pointers that are no links change nothing. */
  lemma {:induction false} PointersMerged(m: seq<nat>, c: nat, t: nat)
    requires |m| == |Types()| && Forest(m) && c in {4, 5} && t == 6 && !IsLink(m, c) && !IsLink(m, t)
    ensures MergedPair(Types(), m, c, t) == m
  {
    Kinds();
    ResolveStep(m, c);
    ResolveStep(m, t);
  }

  lemma {:induction false} ForwardMerged()
    requires Forest(AfterPair())
    ensures |Types()| == |AfterPair()| && MergedPair(Types(), AfterPair(), 9, 8) == AfterForward()
  {
    Kinds();
    ResolveStep(AfterPair(), 8);
    ResolveStep(AfterPair(), 9);
  }

  lemma {:induction false} OtherMerged()
    requires Forest(AfterForward())
    ensures |Types()| == |AfterForward()| && MergedPair(Types(), AfterForward(), 2, 8) == AfterForward()[9 := 2]
  {
    Kinds();
    ResolveStep(AfterForward(), 8);
    ResolveStep(AfterForward(), 9);
    ResolveStep(AfterForward(), 2);
  }

  lemma {:induction false} ListOk()
    ensures |Types()| == |Canon()| && Forest(Canon()) && Recorded(Types(), Hypot(), List())
  {
    CanonOk();
  }

  /** The canonical maps before, between and after the merges. */
  function Maps(): seq<seq<nat>> {
    [Canon(), AfterPair(), AfterPair(), AfterForward(), AfterForward(), AfterForward()[9 := 2]]
  }

  /** Merging the recorded pairs maps `struct T` with one member to `struct T` with another: its
      forward now leads to the one, and was recorded for the other. */
  lemma {:induction false} StructsMixed()
    ensures Forest(Canon()) && MergesTo(Types(), Canon(), Hypot(), List(), AfterForward()[9 := 2])
    ensures IsComposite(Types()[9]) && IsComposite(Types()[2]) && Types()[9].sig.names != Types()[2].sig.names
  {
    Kinds();
    ListOk();
    StructsMerged();
    PointersMerged(AfterPair(), 4, 6);
    ForwardMerged();
    PointersMerged(AfterForward(), 5, 6);
    OtherMerged();
    var maps := Maps();
    forall i | 0 <= i < |maps| - 1 ensures MergeStep(Types(), Hypot(), List(), maps, i) {
      assert i in {0, 1, 2, 3, 4};
    }
    assert MergeSteps(Types(), Hypot(), List(), maps);
  }
}
