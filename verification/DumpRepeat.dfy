/**
 A typedef of a function type that is queued twice: a parameter of the function leads back to the
 typedef, which the search does not mark while it is under way.
 */
module DumpRepeat {
  import opened Common
  import opened TypeGraph
  import opened BtfTypes
  import opened BtfSamples
  import opened DumpSearch
  import opened DumpOrder

  function Struct(member: nat): BtfType { Struct1(5, 9, member) }

  function Typedef(of: nat): BtfType { Node(Signature(7, KIND_TYPEDEF * 0x100_0000, 0, [], []), [of]) }

  function Function(ret: nat, param: nat): BtfType {
    Node(Signature(0, KIND_FUNC_PROTO * 0x100_0000 + 1, 0, [0], []), [ret, param])
  }

  /** `struct S { T *m; }` and `typedef int T(struct S)`. */
  function Callback(): BtfGraph {
    [Void(), Int(), Struct(3), Ptr(4), Typedef(5), Function(1, 2)]
  }

  function Referenced(): seq<bool> { [false, true, true, true, true, true] }

  /** The states before the first dump, and with some types finished. */
  function Fresh(): seq<OrderState> { [Ordered, NotOrdered, NotOrdered, NotOrdered, NotOrdered, NotOrdered] }

  lemma Kinds()
    ensures Kind(Int()) == KIND_INT && Kind(Struct(3)) == KIND_STRUCT && Kind(Ptr(4)) == KIND_PTR
    ensures Kind(Typedef(5)) == KIND_TYPEDEF && Kind(Function(1, 2)) == KIND_FUNC_PROTO
    ensures Layout(Int()) && Layout(Struct(3)) && Layout(Ptr(4)) && Layout(Typedef(5)) && Layout(Function(1, 2))
  {
    SampleKinds();
  }

  lemma CallbackLayout()
    ensures Layouts(Callback()) && WellFormed(Callback())
  {
    Kinds();
    var g := Callback();
    forall i | 0 <= i < |g| ensures Layout(g[i]) && forall j :: 0 <= j < |g[i].refs| ==> g[i].refs[j] < |g| {
      assert Layout(g[0]) && i in {0, 1, 2, 3, 4, 5};
    }
  }

  lemma {:induction false} CallbackRanked()
    ensures GraphOk(Callback()) && Ranked(Callback(), [0, 0, 0, 3, 2, 1])
  {
    Kinds();
    CallbackLayout();
    var g, rank := Callback(), [0, 0, 0, 3, 2, 1];
    forall i, j | 0 <= i < |g| && !IsComposite(g[i]) && 0 <= j < |Followed(g[i])|
      ensures IsComposite(g[Followed(g[i])[j]]) || rank[Followed(g[i])[j]] < rank[i]
    {
      assert i != 0 && i != 1 && i != 2;
    }
  }

  lemma CallbackOk()
    ensures GraphOk(Callback()) && InputOk(Callback(), Referenced(), Fresh())
  {
    CallbackRanked();
  }

  /** The state after the integer, in the struct, and at the end. */
  function AfterInt(): seq<OrderState> { Fresh()[1 := Ordered] }
  function InStruct(): seq<OrderState> { AfterInt()[2 := Ordering] }
  function AfterStruct(): seq<OrderState> { InStruct()[4 := Ordered][3 := Ordered][2 := Ordered] }

  /** Inside the struct, the typedef is reached through the pointer and queued: the integer its
      function returns is a strong link by then. */
  lemma InnerTypedef()
    ensures InputOk(Callback(), Referenced(), InStruct())
    ensures Follows(Callback(), Referenced(), InStruct(), [], 4, true, Found(1, InStruct()[4 := Ordered], [4]))
  {
    CallbackOk();
    Kinds();
    var g, ref, st := Callback(), Referenced(), InStruct();
    FollowsAtOnce(g, ref, st, [], 1, true);
    FollowsAtOnce(g, ref, st, [], 2, true);
    FollowsNone(g, ref, st, [], [1, 2], true);
    FollowsNext(g, ref, st, [], [1, 2], 0, true, Found(0, st, []), Found(1, st, []));
    FollowsNext(g, ref, st, [], [1, 2], 1, true, Found(1, st, []), Found(0, st, []));
    assert g[5].refs == [1, 2];
    FollowsProto(g, ref, st, [], 5, true, Found(1, st, []));
    FollowsTypedef(g, ref, st, [], 4, true, Found(1, st, []));
    assert [] + [4] == [4];
  }

  /** So the struct is queued after the typedef. */
  lemma StructByValue()
    ensures InputOk(Callback(), Referenced(), AfterInt())
    ensures Follows(Callback(), Referenced(), AfterInt(), [], 2, false, Found(1, AfterStruct(), [4, 2]))
  {
    CallbackOk();
    Kinds();
    InnerTypedef();
    var g, ref, st := Callback(), Referenced(), InStruct();
    var after := st[4 := Ordered][3 := Ordered];
    FollowsPtr(g, ref, st, [], 3, false, Found(1, st[4 := Ordered], [4]));
    FollowsNone(g, ref, st, [], [3], false);
    FollowsNext(g, ref, st, [], [3], 0, false, Found(0, st, []), Found(1, after, [4]));
    assert g[2].refs == [3];
    FollowsComposite(g, ref, AfterInt(), [], 2, false, Found(1, after, [4]));
    assert [4] + [2] == [4, 2];
  }

  /** And the typedef once more when its own search ends. */
  lemma TypedefQueuedTwice()
    ensures InputOk(Callback(), Referenced(), Fresh())
    ensures Follows(Callback(), Referenced(), Fresh(), [], 4, false, Found(1, AfterStruct(), [4, 2, 4]))
  {
    CallbackOk();
    Kinds();
    StructByValue();
    var g, ref, st := Callback(), Referenced(), Fresh();
    FollowsAtOnce(g, ref, st, [], 1, false);
    FollowsNone(g, ref, st, [], [1, 2], false);
    FollowsNext(g, ref, st, [], [1, 2], 0, false, Found(0, st, []), Found(0, AfterInt(), []));
    FollowsNext(g, ref, st, [], [1, 2], 1, false, Found(0, AfterInt(), []), Found(1, AfterStruct(), [4, 2]));
    assert g[5].refs == [1, 2];
    FollowsProto(g, ref, st, [], 5, false, Found(1, AfterStruct(), [4, 2]));
    FollowsTypedef(g, ref, st, [], 4, false, Found(1, AfterStruct(), [4, 2]));
    assert AfterStruct()[4 := Ordered] == AfterStruct() && [4, 2] + [4] == [4, 2, 4];
  }

  lemma {:induction false} CallbackFollows(g: BtfGraph, referenced: seq<bool>, st: seq<OrderState>, f: Found)
    requires g == Callback() && referenced == Referenced() && st == Fresh() && InputOk(g, referenced, st)
    requires Follows(g, referenced, st, [], 4, false, f)
    ensures f.r == 1 && f.q == [4, 2, 4]
  {
    TypedefQueuedTwice();
    FollowsUnique(g, referenced, st, [], 4, false, f, Found(1, AfterStruct(), [4, 2, 4]));
  }

  /** Dumping the typedef on a fresh dumper emits it twice, unless memory runs out. */
  method DumpCallback(types: BtfGraph, referenced: seq<bool>, memory: bool) returns (err: int, emitted: seq<nat>)
    requires types == Callback() && referenced == Referenced()
    ensures err != ENOMEM ==> err == 0 && emitted == [4, 2, 4]
    ensures err == ENOMEM ==> !memory
  {
    CallbackRanked();
    var d := new BtfDump(types, referenced, memory);
    ghost var start := d.orderState;
    assert start == Fresh();
    err := d.DumpType(4, [0, 0, 0, 3, 2, 1]);
    emitted := d.emitQueue;
    if err != ENOMEM {
      ghost var r :|
        && Follows(types, referenced, start, [], 4, false, Found(r, d.orderState, d.queued))
        && err == if r < 0 then r else 0;
      CallbackFollows(types, referenced, start, Found(r, d.orderState, d.queued));
      assert [] + d.emitQueue == d.emitQueue;
    }
  }
}
