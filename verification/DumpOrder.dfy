/**
 Ordering of type definitions for the C dump: a depth-first search that queues a
 struct or union only after everything whose definition it needs.
 */
module DumpOrder {
  import opened Common
  import opened TypeGraph
  import opened BtfTypes
  import opened DumpSearch
  import opened DumpErrors

  /** Types whose definition needs the definitions of what they embed. */
  predicate Defines(t: BtfType) { NamedComposite(t) || Kind(t) == KIND_TYPEDEF }
  /** The types whose definition is part of the definition of `t`: array elements, modified and
      aliased types, and the members of an anonymous struct or union. */
  function ByValue(t: BtfType): seq<nat>
    requires Layout(t)
  {
    var k := Kind(t);
    if k == KIND_TYPEDEF || IsMod(k) then t.refs
    else if k == KIND_ARRAY then [t.refs[0]]
    else if IsComposite(t) && !Named(t) then t.refs
    else []
  }

  /** Every cycle passes through a struct or union: the references followed between other types
      lower a rank. */
  ghost predicate Ranked(g: BtfGraph, rank: seq<nat>)
    requires GraphOk(g)
  {
    |rank| == |g| &&
    forall i, j :: 0 <= i < |g| && !IsComposite(g[i]) && 0 <= j < |Followed(g[i])| ==>
      Followed(g[i])[j] < |g| && (IsComposite(g[Followed(g[i])[j]]) || rank[Followed(g[i])[j]] < rank[i])
  }

  /** Named struct or union `t` is embedded by value in `id` through at most `k` nested types. */
  ghost predicate Embeds(g: BtfGraph, id: nat, t: nat, k: nat)
    requires GraphOk(g) && id < |g|
    decreases k
  {
    || (id == t && NamedComposite(g[id]))
    || (&& k > 0
        && var parts := ByValue(g[id]);
           exists j :: 0 <= j < |parts| && parts[j] < |g| && Embeds(g, parts[j], t, k - 1))
  }

  /** Everything `id` embeds by value has been queued. */
  ghost predicate Satisfied(g: BtfGraph, id: nat, queued: seq<nat>)
    requires GraphOk(g) && id < |g|
  {
    forall k: nat, t: nat :: Embeds(g, id, t, k) ==> t in queued
  }

  lemma SatisfiedGrows(g: BtfGraph, id: nat, q: seq<nat>, q': seq<nat>)
    requires GraphOk(g) && id < |g| && Satisfied(g, id, q) && q <= q'
    ensures Satisfied(g, id, q')
  {
    assert forall t :: t in q ==> t in q';
  }

  /** A type that is no named struct or union is satisfied once all it contains by value is. */
  lemma SatisfiedFromParts(g: BtfGraph, id: nat, q: seq<nat>)
    requires GraphOk(g) && id < |g| && (NamedComposite(g[id]) ==> id in q)
    requires forall j :: 0 <= j < |ByValue(g[id])| ==> ByValue(g[id])[j] < |g| && Satisfied(g, ByValue(g[id])[j], q)
    ensures Satisfied(g, id, q)
  {
  }

  /** Every named struct or union and every typedef in the queue comes after all it embeds. */
  ghost predicate WellOrdered(g: BtfGraph, q: seq<nat>)
    requires GraphOk(g)
  {
    forall p, m, k: nat, t: nat ::
      0 <= p < |q| && q[p] < |g| && Defines(g[q[p]]) && 0 <= m < |g[q[p]].refs| && Embeds(g, g[q[p]].refs[m], t, k) ==>
        t in q[..p]
  }

  /** Types queued at most once: named structs and unions, enums, forwards, and typedefs that the
      search from their own target does not reach. */
  ghost predicate Once(g: BtfGraph, id: nat)
    requires Layouts(g) && id < |g|
  {
    || NamedComposite(g[id]) || IsEnum(g[id]) || IsFwd(g[id])
    || (Kind(g[id]) == KIND_TYPEDEF && !Reaches(g, g[id].refs[0], id))
  }

  ghost predicate NoRepeats(g: BtfGraph, q: seq<nat>)
    requires Layouts(g)
  {
    forall i, j :: 0 <= i < j < |q| && q[i] < |g| && Once(g, q[i]) ==> q[i] != q[j]
  }

  /** The search state is consistent with everything queued so far. */
  ghost predicate Consistent(g: BtfGraph, st: seq<OrderState>, q: seq<nat>)
    requires GraphOk(g)
  {
    && |st| == |g|
    && (forall i :: 0 <= i < |g| && st[i] == Ordered ==> Satisfied(g, i, q))
    && (forall i :: 0 <= i < |q| ==> q[i] < |g| && (Once(g, q[i]) ==> st[q[i]] == Ordered))
    && WellOrdered(g, q) && NoRepeats(g, q)
  }

  /** What a successful search keeps: types under way stay so, finished types stay finished, and
      the queue only grows. */
  ghost predicate Progress(st: seq<OrderState>, q: seq<nat>, st': seq<OrderState>, q': seq<nat>) {
    && |st| == |st'| && q <= q'
    && (forall i :: 0 <= i < |st| ==> (st[i] == Ordering <==> st'[i] == Ordering))
    && (forall i :: 0 <= i < |st| && st[i] == Ordered ==> st'[i] == Ordered)
  }

  /** The structs and unions not yet visited. */
  ghost function Unvisited(g: BtfGraph, st: seq<OrderState>): set<nat>
    requires |st| == |g|
  {
    set i: nat | 0 <= i < |g| && IsComposite(g[i]) && st[i] == NotOrdered
  }

  /** Queueing a type after all it embeds keeps the order. */
  lemma {:induction false} QueueInOrder(g: BtfGraph, q: seq<nat>, id: nat)
    requires GraphOk(g) && WellOrdered(g, q) && id < |g|
    requires Defines(g[id]) ==> forall m :: 0 <= m < |g[id].refs| ==> Satisfied(g, g[id].refs[m], q)
    ensures WellOrdered(g, q + [id])
  {
    var q' := q + [id];
    forall p, m, k: nat, t: nat |
      0 <= p < |q'| && q'[p] < |g| && Defines(g[q'[p]]) && 0 <= m < |g[q'[p]].refs| && Embeds(g, g[q'[p]].refs[m], t, k)
      ensures t in q'[..p]
    {
      if p == |q| {
        assert q'[..p] == q && Satisfied(g, g[id].refs[m], q);
      } else {
        assert q'[..p] == q[..p] && q'[p] == q[p];
      }
    }
  }

  /** Queueing and finishing a type that was not finished before, if it may be queued only once. */
  lemma {:induction false} QueueType(g: BtfGraph, st: seq<OrderState>, q: seq<nat>, id: nat)
    requires GraphOk(g) && Consistent(g, st, q) && id < |g| && (Once(g, id) ==> st[id] != Ordered)
    requires Defines(g[id]) ==> forall m :: 0 <= m < |g[id].refs| ==> Satisfied(g, g[id].refs[m], q)
    requires IsEnum(g[id]) || IsFwd(g[id]) || Defines(g[id])
    ensures Consistent(g, st[id := Ordered], q + [id])
  {
    var q' := q + [id];
    QueueInOrder(g, q, id);
    forall i | 0 <= i < |g| && st[id := Ordered][i] == Ordered ensures Satisfied(g, i, q') {
      if i == id { QueuedSatisfied(g, q, id); } else { SatisfiedGrows(g, i, q, q'); }
    }
  }

  lemma {:induction false} QueuedSatisfied(g: BtfGraph, q: seq<nat>, id: nat)
    requires GraphOk(g) && id < |g|
    requires Defines(g[id]) ==> forall m :: 0 <= m < |g[id].refs| ==> Satisfied(g, g[id].refs[m], q)
    requires IsEnum(g[id]) || IsFwd(g[id]) || Defines(g[id])
    ensures Satisfied(g, id, q + [id])
  {
    if Kind(g[id]) == KIND_TYPEDEF { SatisfiedGrows(g, g[id].refs[0], q, q + [id]); }
    SatisfiedFromParts(g, id, q + [id]);
  }

  lemma MarkOrdered(g: BtfGraph, st: seq<OrderState>, q: seq<nat>, id: nat)
    requires GraphOk(g) && Consistent(g, st, q) && id < |g| && Satisfied(g, id, q)
    ensures Consistent(g, st[id := Ordered], q)
  {
  }

  lemma MarkOrdering(g: BtfGraph, st: seq<OrderState>, q: seq<nat>, id: nat)
    requires GraphOk(g) && Consistent(g, st, q) && id < |g| && st[id] == NotOrdered
    ensures Consistent(g, st[id := Ordering], q)
  {
  }

  lemma ProgressTrans(s0: seq<OrderState>, q0: seq<nat>, s1: seq<OrderState>, q1: seq<nat>, s2: seq<OrderState>,
                      q2: seq<nat>)
    requires Progress(s0, q0, s1, q1) && Progress(s1, q1, s2, q2)
    ensures Progress(s0, q0, s2, q2)
  {
    assert q2[..|q0|] == q1[..|q0|];
  }

  /** Marking a type as ordered after a search that left it under way or not ordered; `from` is the
      state the search began in, but for the mark of the type itself. */
  lemma {:induction false} MarkedProgress(g: BtfGraph, from: seq<OrderState>, mark: OrderState, q0: seq<nat>,
                                          st: seq<OrderState>, q: seq<nat>, q': seq<nat>, id: nat)
    requires |from| == |g| && id < |g| && from[id] == NotOrdered && mark != Ordered && q <= q'
    requires Progress(from[id := mark], q0, st, q)
    requires Unvisited(g, st) <= Unvisited(g, from[id := mark])
    ensures Progress(from, q0, st[id := Ordered], q')
    ensures Unvisited(g, st[id := Ordered]) <= Unvisited(g, from)
  {
    var before, after := from[id := mark], st[id := Ordered];
    forall i | 0 <= i < |from| && i != id
      ensures before[i] == from[i] && after[i] == st[i]
    {
    }
    forall i | i in Unvisited(g, after) ensures i in Unvisited(g, from) {
      assert i in Unvisited(g, st);
    }
  }

  /** The emit queue grows in step with everything queued. */
  lemma EmitTrans(e0: seq<nat>, q0: seq<nat>, e1: seq<nat>, q1: seq<nat>, e2: seq<nat>, q2: seq<nat>)
    requires q0 <= q1 <= q2 && e1 == e0 + q1[|q0|..] && e2 == e1 + q2[|q1|..]
    ensures e2 == e0 + q2[|q0|..]
  {
    assert q2[|q0|..] == q1[|q0|..] + q2[|q1|..];
  }

  class BtfDump {
    const types: BtfGraph
    const referenced: seq<bool>
    const memory: bool            // every allocation is granted; otherwise any of them may fail
    var orderState: seq<OrderState>
    var emitQueue: seq<nat>
    ghost var queued: seq<nat>    // everything queued so far, over all dump calls

    ghost predicate Valid()
      reads this
    {
      GraphOk(types) && |referenced| == |types| && Consistent(types, orderState, queued) && orderState[0] == Ordered
    }

    /** The state set up by the first dump: only `void` is ordered.  `referenced` says which types
        are referred to by others. */
    constructor (types: BtfGraph, referenced: seq<bool>, memory: bool)
      requires GraphOk(types) && |referenced| == |types|
      ensures Valid() && queued == [] && NothingUnderWay()
      ensures this.types == types && this.referenced == referenced && this.memory == memory
      ensures |orderState| == |types|
      ensures forall i :: 0 <= i < |types| ==> orderState[i] == if i == 0 then Ordered else NotOrdered
    {
      this.types, this.referenced, this.memory := types, referenced, memory;
      orderState := seq(|types|, i => if i == 0 then Ordered else NotOrdered);
      emitQueue, queued := [], [];
      new;
      SatisfiedFromParts(types, 0, []);
    }

    ghost predicate NothingUnderWay()
      reads this
    {
      forall i :: 0 <= i < |orderState| ==> orderState[i] != Ordering
    }

    /** `btf_dump_add_emit_queue_id`. */
    method AddEmitQueueId(id: nat) returns (err: int)
      modifies this`emitQueue, this`queued
      ensures err == 0 || (err == ENOMEM && !memory)
      ensures err == 0 ==> emitQueue == old(emitQueue) + [id] && queued == old(queued) + [id]
    {
      if !memory {
        var granted: bool := *;
        if !granted { return ENOMEM; }
      }
      emitQueue, queued := emitQueue + [id], queued + [id];
      return 0;
    }

    /** `btf_dump_order_type`: 1 for a strong link, 0 for a weak one, negative on error. */
    method OrderType(id: nat, throughPtr: bool, ghost rank: seq<nat>) returns (r: int)
      requires Valid() && id < |types| && Ranked(types, rank)
      modifies this`orderState, this`emitQueue, this`queued
      ensures r <= 1 && |orderState| == |types|
      ensures r >= 0 ==> Valid() && Progress(old(orderState), old(queued), orderState, queued)
      ensures r >= 0 ==> emitQueue == old(emitQueue) + queued[|old(queued)|..]
      ensures r >= 0 ==> Unvisited(types, orderState) <= Unvisited(types, old(orderState))
      ensures r >= 0 && (r == 1 || !throughPtr) ==> Satisfied(types, id, queued)
      ensures r == ENOMEM ==> !memory
      ensures r != ENOMEM ==> Follows(types, referenced, old(orderState), old(queued), id, throughPtr,
                                     Found(r, orderState, queued))
      decreases Unvisited(types, orderState), if IsComposite(types[id]) then 0 else 1 + rank[id], 1
    {
      ghost var st, q := orderState, queued;
      FollowsLeaf(types, referenced, st, q, id, throughPtr);
      if orderState[id] == Ordered { return 1; }
      var t := types[id];
      if orderState[id] == Ordering {
        if IsComposite(t) && throughPtr && Named(t) { return 0; }
        return ELOOP;
      }
      var kind := Kind(t);
      if kind == KIND_INT {
        MarkLeaf(id);
        return 0;
      } else if kind == KIND_PTR {
        r := OrderPtr(id, throughPtr, rank);
      } else if kind == KIND_ARRAY || IsMod(kind) {
        r := OrderElement(id, throughPtr, rank);
      } else if kind == KIND_STRUCT || kind == KIND_UNION {
        if throughPtr && Named(t) { return 0; }
        r := OrderComposite(id, throughPtr, rank);
      } else if kind == KIND_ENUM || kind == KIND_FWD {
        r := OrderEnum(id);
      } else if kind == KIND_TYPEDEF {
        r := OrderTypedef(id, throughPtr, rank);
      } else if kind == KIND_FUNC_PROTO {
        r := OrderProto(id, throughPtr, rank);
      } else if kind == KIND_FUNC || kind == KIND_VAR || kind == KIND_DATASEC {
        MarkLeaf(id);
        return 0;
      } else {
        return EINVAL;
      }
    }

    /** The pointer case: what it points to is reached through a pointer. */
    method OrderPtr(id: nat, ghost throughPtr: bool, ghost rank: seq<nat>) returns (r: int)
      requires Valid() && id < |types| && Ranked(types, rank)
      requires Kind(types[id]) == KIND_PTR && orderState[id] == NotOrdered
      modifies this`orderState, this`emitQueue, this`queued
      ensures r <= 1 && |orderState| == |types|
      ensures r >= 0 ==> Valid() && Progress(old(orderState), old(queued), orderState, queued)
      ensures r >= 0 ==> emitQueue == old(emitQueue) + queued[|old(queued)|..]
      ensures r >= 0 ==> Unvisited(types, orderState) <= Unvisited(types, old(orderState))
      ensures r >= 0 ==> Satisfied(types, id, queued)
      ensures r == ENOMEM ==> !memory
      ensures r != ENOMEM ==> Follows(types, referenced, old(orderState), old(queued), id, throughPtr,
                                     Found(r, orderState, queued))
      decreases Unvisited(types, orderState), 1 + rank[id], 0
    {
      assert Followed(types[id])[0] == types[id].refs[0];
      r := OrderType(types[id].refs[0], true, rank);
      if r != ENOMEM {
        FollowsPtr(types, referenced, old(orderState), old(queued), id, throughPtr, Found(r, orderState, queued));
      }
      if r >= 0 { MarkLeaf(id); } else { orderState := orderState[id := Ordered]; }
    }

    /** The array and modifier case: the element or modified type takes the place of this one. */
    method OrderElement(id: nat, throughPtr: bool, ghost rank: seq<nat>) returns (r: int)
      requires Valid() && id < |types| && Ranked(types, rank) && orderState[id] == NotOrdered
      requires Kind(types[id]) == KIND_ARRAY || IsMod(Kind(types[id]))
      modifies this`orderState, this`emitQueue, this`queued
      ensures r <= 1 && |orderState| == |types|
      ensures r >= 0 ==> Valid() && Progress(old(orderState), old(queued), orderState, queued)
      ensures r >= 0 ==> emitQueue == old(emitQueue) + queued[|old(queued)|..]
      ensures r >= 0 ==> Unvisited(types, orderState) <= Unvisited(types, old(orderState))
      ensures r >= 0 && (r == 1 || !throughPtr) ==> Satisfied(types, id, queued)
      ensures r == ENOMEM ==> !memory
      ensures r != ENOMEM ==> Follows(types, referenced, old(orderState), old(queued), id, throughPtr,
                                     Found(r, orderState, queued))
      decreases Unvisited(types, orderState), 1 + rank[id], 0
    {
      assert Followed(types[id])[0] == types[id].refs[0];
      r := OrderType(types[id].refs[0], throughPtr, rank);
      if r == ENOMEM { return; }
      FollowsElement(types, referenced, old(orderState), old(queued), id, throughPtr, Found(r, orderState, queued));
      if r == 1 || (r == 0 && !throughPtr) { SatisfiedFromParts(types, id, queued); }
    }

    /** Marks a type that embeds nothing as ordered. */
    method MarkLeaf(id: nat)
      requires Valid() && id < |types| && orderState[id] != Ordering
      requires !IsComposite(types[id]) && ByValue(types[id]) == []
      modifies this`orderState
      ensures Valid() && orderState == old(orderState)[id := Ordered]
      ensures Progress(old(orderState), queued, orderState, queued)
      ensures Unvisited(types, orderState) == Unvisited(types, old(orderState))
      ensures Satisfied(types, id, queued)
    {
      SatisfiedFromParts(types, id, queued);
      MarkOrdered(types, orderState, queued, id);
      orderState := orderState[id := Ordered];
    }

    /** The struct and union case: order all members, then queue the type itself if it is named. */
    method OrderComposite(id: nat, ghost throughPtr: bool, ghost rank: seq<nat>) returns (r: int)
      requires Valid() && id < |types| && Ranked(types, rank) && IsComposite(types[id]) && orderState[id] == NotOrdered
      requires !(throughPtr && Named(types[id]))
      modifies this`orderState, this`emitQueue, this`queued
      ensures r <= 1 && |orderState| == |types|
      ensures r >= 0 ==> r == 1 && Valid() && Progress(old(orderState), old(queued), orderState, queued)
      ensures r >= 0 ==> emitQueue == old(emitQueue) + queued[|old(queued)|..]
      ensures r >= 0 ==> Unvisited(types, orderState) <= Unvisited(types, old(orderState))
      ensures r >= 0 ==> Satisfied(types, id, queued)
      ensures r >= 0 ==> orderState[id] == Ordered && (Named(types[id]) ==> queued != [] && queued[|queued| - 1] == id)
      ensures r == ENOMEM ==> !memory
      ensures r != ENOMEM ==> Follows(types, referenced, old(orderState), old(queued), id, throughPtr,
                                     Found(r, orderState, queued))
      decreases Unvisited(types, orderState), 0, 0
    {
      var t := types[id];
      MarkOrdering(types, orderState, queued, id);
      assert id in Unvisited(types, orderState);
      orderState := orderState[id := Ordering];
      assert id !in Unvisited(types, orderState);
      ghost var strong;
      r, strong := OrderMembers(t.refs, rank);
      if r < 0 {
        if r != ENOMEM {
          FollowsFailed(types, referenced, old(orderState), old(queued), id, throughPtr, Found(r, orderState, queued));
        }
        return;
      }
      ghost var st, q, e := orderState, queued, emitQueue;
      FollowsComposite(types, referenced, old(orderState), old(queued), id, throughPtr, Found(strong, st, q));
      var err := EmitComposite(id);
      if err != 0 { return err; }
      MarkedProgress(types, old(orderState), Ordering, old(queued), st, q, queued, id);
      EmitTrans(old(emitQueue), old(queued), e, q, emitQueue, queued);
      return 1;
    }

    /** Queues a struct or union after its members, if it is named, and marks it as ordered. */
    method EmitComposite(id: nat) returns (err: int)
      requires Valid() && id < |types| && IsComposite(types[id]) && orderState[id] == Ordering
      requires forall j :: 0 <= j < |types[id].refs| ==> Satisfied(types, types[id].refs[j], queued)
      modifies this`orderState, this`emitQueue, this`queued
      ensures (err == 0 || (err == ENOMEM && !memory)) && |orderState| == |types|
      ensures err == 0 ==> Valid() && orderState == old(orderState)[id := Ordered] && Satisfied(types, id, queued)
      ensures err == 0 ==> queued == if Named(types[id]) then old(queued) + [id] else old(queued)
      ensures err == 0 ==> emitQueue == if Named(types[id]) then old(emitQueue) + [id] else old(emitQueue)
    {
      if Named(types[id]) {
        QueueType(types, orderState, queued, id);
        QueuedSatisfied(types, queued, id);
        err := AddEmitQueueId(id);
        if err != 0 { return; }
      } else {
        SatisfiedFromParts(types, id, queued);
        MarkOrdered(types, orderState, queued, id);
        err := 0;
      }
      orderState := orderState[id := Ordered];
    }

    /** Orders the member types one after the other, by value. */
    method OrderMembers(refs: seq<nat>, ghost rank: seq<nat>) returns (r: int, ghost strong: int)
      requires Valid() && Ranked(types, rank) && forall j :: 0 <= j < |refs| ==> refs[j] < |types|
      modifies this`orderState, this`emitQueue, this`queued
      ensures r <= 0 && |orderState| == |types|
      ensures r == 0 ==> Valid() && Progress(old(orderState), old(queued), orderState, queued)
      ensures r == 0 ==> emitQueue == old(emitQueue) + queued[|old(queued)|..]
      ensures r == 0 ==> Unvisited(types, orderState) <= Unvisited(types, old(orderState))
      ensures r == 0 ==> forall j :: 0 <= j < |refs| ==> Satisfied(types, refs[j], queued)
      ensures r == 0 ==> strong >= 0
      ensures r == ENOMEM ==> !memory
      ensures r != ENOMEM ==> FollowsList(types, referenced, old(orderState), old(queued), refs, |refs|, false,
                                          Found(if r == 0 then strong else r, orderState, queued))
      decreases Unvisited(types, orderState)
    {
      var i := 0;
      strong := 0;
      FollowsNone(types, referenced, orderState, queued, refs, false);
      while i < |refs|
        invariant strong >= 0 && i <= |refs|
        invariant FollowsList(types, referenced, old(orderState), old(queued), refs, i, false,
                              Found(strong, orderState, queued))
        invariant i <= |refs| && Valid() && Progress(old(orderState), old(queued), orderState, queued)
        invariant emitQueue == old(emitQueue) + queued[|old(queued)|..]
        invariant Unvisited(types, orderState) <= Unvisited(types, old(orderState))
        invariant forall j :: 0 <= j < i ==> Satisfied(types, refs[j], queued)
      {
        ghost var st, q, e := orderState, queued, emitQueue;
        var err := OrderType(refs[i], false, rank);
        if err == ENOMEM { return err, 0; }
        FollowsNext(types, referenced, old(orderState), old(queued), refs, i, false, Found(strong, st, q),
                    Found(err, orderState, queued));
        if err < 0 {
          FollowsStopped(types, referenced, old(orderState), old(queued), refs, i + 1, false,
                         Found(err, orderState, queued));
          return err, 0;
        }
        strong := if err == 0 then strong else err;
        ProgressTrans(old(orderState), old(queued), st, q, orderState, queued);
        EmitTrans(old(emitQueue), old(queued), e, q, emitQueue, queued);
        forall j | 0 <= j < i ensures Satisfied(types, refs[j], queued) { SatisfiedGrows(types, refs[j], q, queued); }
        i := i + 1;
      }
      return 0, strong;
    }

    method OrderEnum(id: nat) returns (r: int)
      requires Valid() && id < |types| && (IsEnum(types[id]) || IsFwd(types[id])) && orderState[id] == NotOrdered
      modifies this`orderState, this`emitQueue, this`queued
      ensures r <= 1 && |orderState| == |types|
      ensures r >= 0 ==> Valid() && Progress(old(orderState), old(queued), orderState, queued)
      ensures r >= 0 ==> emitQueue == old(emitQueue) + queued[|old(queued)|..]
      ensures r >= 0 ==> Unvisited(types, orderState) <= Unvisited(types, old(orderState))
      ensures r >= 0 ==> Satisfied(types, id, queued)
      ensures r < 0 ==> r == ENOMEM && !memory
      ensures r >= 0 ==> r == 1 && orderState == old(orderState)[id := Ordered]
      ensures r >= 0 ==> queued == old(queued) + if Named(types[id]) || !referenced[id] then [id] else []
    {
      if Named(types[id]) || !referenced[id] {
        QueueType(types, orderState, queued, id);
        var err := AddEmitQueueId(id);
        if err != 0 { return err; }
        SatisfiedFromParts(types, id, queued);
        orderState := orderState[id := Ordered];
      } else {
        MarkLeaf(id);
      }
      return 1;
    }

    method OrderTypedef(id: nat, throughPtr: bool, ghost rank: seq<nat>) returns (r: int)
      requires Valid() && id < |types| && Ranked(types, rank)
      requires Kind(types[id]) == KIND_TYPEDEF && orderState[id] == NotOrdered
      modifies this`orderState, this`emitQueue, this`queued
      ensures r <= 1 && |orderState| == |types|
      ensures r >= 0 ==> Valid() && Progress(old(orderState), old(queued), orderState, queued)
      ensures r >= 0 ==> emitQueue == old(emitQueue) + queued[|old(queued)|..]
      ensures r >= 0 ==> Unvisited(types, orderState) <= Unvisited(types, old(orderState))
      ensures r >= 0 && (r == 1 || !throughPtr) ==> Satisfied(types, id, queued)
      ensures r == 1 ==> orderState[id] == Ordered && queued != [] && queued[|queued| - 1] == id
      ensures r == 0 ==> throughPtr
      ensures r == ENOMEM ==> !memory
      ensures r != ENOMEM ==> Follows(types, referenced, old(orderState), old(queued), id, throughPtr,
                                     Found(r, orderState, queued))
      decreases Unvisited(types, orderState), 1 + rank[id], 0
    {
      assert Followed(types[id])[0] == types[id].refs[0];
      var isStrong := OrderType(types[id].refs[0], throughPtr, rank);
      if isStrong == ENOMEM { return isStrong; }
      ghost var f := Found(isStrong, orderState, queued);
      FollowsTouches(types, referenced, old(orderState), old(queued), types[id].refs[0], throughPtr, f);
      FollowsTypedef(types, referenced, old(orderState), old(queued), id, throughPtr, f);
      if isStrong < 0 { return isStrong; }
      if throughPtr && isStrong == 0 { return 0; }
      ghost var e := emitQueue;
      var err := EmitTypedef(id);
      if err != 0 { return err; }
      assert old(orderState)[id := NotOrdered] == old(orderState);
      MarkedProgress(types, old(orderState), NotOrdered, old(queued), f.st, f.q, queued, id);
      EmitTrans(old(emitQueue), old(queued), e, f.q, emitQueue, queued);
      return 1;
    }

    /** Queues a typedef after what it embeds and marks it as ordered. */
    method EmitTypedef(id: nat) returns (err: int)
      requires Valid() && id < |types| && Kind(types[id]) == KIND_TYPEDEF && orderState[id] != Ordering
      requires Once(types, id) ==> orderState[id] != Ordered
      requires Satisfied(types, types[id].refs[0], queued)
      modifies this`orderState, this`emitQueue, this`queued
      ensures (err == 0 || (err == ENOMEM && !memory)) && |orderState| == |types|
      ensures err == 0 ==> Valid() && orderState == old(orderState)[id := Ordered] && Satisfied(types, id, queued)
      ensures err == 0 ==> queued == old(queued) + [id] && emitQueue == old(emitQueue) + [id]
    {
      QueueType(types, orderState, queued, id);
      QueuedSatisfied(types, queued, id);
      err := AddEmitQueueId(id);
      if err != 0 { return; }
      orderState := orderState[id := Ordered];
    }

    method OrderProto(id: nat, throughPtr: bool, ghost rank: seq<nat>) returns (r: int)
      requires Valid() && id < |types| && Ranked(types, rank)
      requires Kind(types[id]) == KIND_FUNC_PROTO && orderState[id] == NotOrdered
      modifies this`orderState, this`emitQueue, this`queued
      ensures r <= 1 && |orderState| == |types|
      ensures r >= 0 ==> Valid() && Progress(old(orderState), old(queued), orderState, queued)
      ensures r >= 0 ==> emitQueue == old(emitQueue) + queued[|old(queued)|..]
      ensures r >= 0 ==> Unvisited(types, orderState) <= Unvisited(types, old(orderState))
      ensures r >= 0 ==> Satisfied(types, id, queued)
      ensures r == ENOMEM ==> !memory
      ensures r != ENOMEM ==> Follows(types, referenced, old(orderState), old(queued), id, throughPtr,
                                     Found(r, orderState, queued))
      decreases Unvisited(types, orderState), 1 + rank[id], 0
    {
      var refs := types[id].refs;
      var i := 0;
      r := 0;
      FollowsNone(types, referenced, orderState, queued, refs, throughPtr);
      while i < |refs|
        invariant i <= |refs| && Valid() && Progress(old(orderState), old(queued), orderState, queued)
        invariant emitQueue == old(emitQueue) + queued[|old(queued)|..]
        invariant Unvisited(types, orderState) <= Unvisited(types, old(orderState)) && 0 <= r <= 1
        invariant FollowsList(types, referenced, old(orderState), old(queued), refs, i, throughPtr,
                              Found(r, orderState, queued))
      {
        ghost var st, q, e := orderState, queued, emitQueue;
        assert Followed(types[id])[i] == refs[i];
        var err := OrderType(refs[i], throughPtr, rank);
        if err == ENOMEM { return err; }
        FollowsNext(types, referenced, old(orderState), old(queued), refs, i, throughPtr, Found(r, st, q),
                    Found(err, orderState, queued));
        if err < 0 {
          FollowsStopped(types, referenced, old(orderState), old(queued), refs, i + 1, throughPtr,
                         Found(err, orderState, queued));
          FollowsProto(types, referenced, old(orderState), old(queued), id, throughPtr, Found(err, orderState, queued));
          return err;
        }
        ProgressTrans(old(orderState), old(queued), st, q, orderState, queued);
        EmitTrans(old(emitQueue), old(queued), e, q, emitQueue, queued);
        if err > 0 { r := 1; }
        i := i + 1;
      }
      FollowsProto(types, referenced, old(orderState), old(queued), id, throughPtr, Found(r, orderState, queued));
      SatisfiedFromParts(types, id, queued);
    }

    /** The ordering part of `btf_dump__dump_type`; on success the emit queue is what this call emits.
        It fails only for want of memory, at a type id or a type of a kind that is not known, or at a
        struct or union that leads back to itself by value or without having a name; and it does fail
        if a named one is embedded in itself. */
    method DumpType(id: nat, ghost rank: seq<nat>) returns (err: int)
      requires Valid() && NothingUnderWay() && Ranked(types, rank)
      modifies this`orderState, this`emitQueue, this`queued
      ensures err == 0 ==> Valid() && NothingUnderWay() && id < |types| && Satisfied(types, id, queued)
      ensures err == 0 ==> queued == old(queued) + emitQueue
      ensures err != ENOMEM && id < |types| ==>
                exists r :: Follows(types, referenced, old(orderState), old(queued), id, false,
                                    Found(r, orderState, queued)) && err == if r < 0 then r else 0
      ensures err == 0 ==> EmitsFor(types, referenced, [id], emitQueue)
      ensures DumpEnds(types, id, memory, err)
    {
      if id >= |types| { return EINVAL; }
      emitQueue := [];
      err := OrderType(id, false, rank);
      if err != ENOMEM {
        SearchEnds(types, referenced, old(orderState), old(queued), id, Found(err, orderState, queued), memory);
      }
      if err < 0 { return; }
      return 0;
    }
  }

  /** Everything emitted is a definition that one of the types leads to. */
  ghost predicate EmitsFor(g: BtfGraph, referenced: seq<bool>, ids: seq<nat>, emitted: seq<nat>)
    requires Layouts(g) && |referenced| == |g|
  {
    forall b :: b in emitted ==> QueuedForAny(g, referenced, ids, false, b)
  }

  lemma {:induction false} EmittedFor(g: BtfGraph, referenced: seq<bool>, q: seq<nat>, id: nat, q': seq<nat>,
                                      emitted: seq<nat>)
    requires Layouts(g) && |referenced| == |g| && Queues(g, referenced, q, id, false, q') && q' == q + emitted
    ensures EmitsFor(g, referenced, [id], emitted)
  {
    forall b | b in emitted ensures QueuedForAny(g, referenced, [id], false, b) {
      var i :| 0 <= i < |emitted| && emitted[i] == b;
      assert q'[|q| + i] == b && id in [id];
    }
  }

  /** What the end of a search means for the dump. */
  lemma {:induction false} SearchEnds(g: BtfGraph, referenced: seq<bool>, st: seq<OrderState>, q: seq<nat>, id: nat,
                                      f: Found, memory: bool)
    requires GraphOk(g) && |referenced| == |g| == |st| && id < |g| && Follows(g, referenced, st, q, id, false, f)
    requires st[0] == Ordered && forall i :: 0 <= i < |g| ==> st[i] != Ordering
    requires f.r >= 0 ==> WellOrdered(g, f.q) && NoRepeats(g, f.q) && Satisfied(g, id, f.q)
    ensures DumpEnds(g, id, memory, if f.r < 0 then f.r else 0)
    ensures q <= f.q && EmitsFor(g, referenced, [id], f.q[|q|..])
  {
    FollowsOutcome(g, referenced, st, q, id, f);
    EmittedFor(g, referenced, q, id, f.q, f.q[|q|..]);
    if f.r >= 0 {
      forall t, k | Embeds(g, id, t, k) ensures !EmbedsItself(g, t) { QueuedOnce(g, f.q, t); }
    }
  }

  lemma {:induction false} EmitsForMore(g: BtfGraph, referenced: seq<bool>, ids: seq<nat>, i: nat, emitted: seq<nat>,
                                        more: seq<nat>)
    requires Layouts(g) && |referenced| == |g| && i < |ids|
    requires EmitsFor(g, referenced, ids, emitted) && EmitsFor(g, referenced, [ids[i]], more)
    ensures EmitsFor(g, referenced, ids, emitted + more)
  {
    forall b | b in emitted + more ensures QueuedForAny(g, referenced, ids, false, b) {
      if b !in emitted {
        assert QueuedForAny(g, referenced, [ids[i]], false, b);
        assert ids[i] in ids;
      }
    }
  }

  /** A struct or union one of whose members embeds it by value. */
  ghost predicate EmbedsItself(g: BtfGraph, t: nat)
    requires GraphOk(g)
  {
    t < |g| && NamedComposite(g[t]) && exists m, k: nat :: 0 <= m < |g[t].refs| && Embeds(g, g[t].refs[m], t, k)
  }

  /** What is queued after all it embeds, and once, does not embed itself. */
  lemma {:induction false} QueuedOnce(g: BtfGraph, q: seq<nat>, t: nat)
    requires GraphOk(g) && WellOrdered(g, q) && NoRepeats(g, q) && t in q
    ensures !EmbedsItself(g, t)
  {
    if t < |g| && NamedComposite(g[t]) {
      var p :| 0 <= p < |q| && q[p] == t;
      assert Once(g, q[p]) && forall i :: 0 <= i < p ==> q[i] != q[p];
      assert t !in q[..p];
      forall m, k: nat | 0 <= m < |g[t].refs| ensures !Embeds(g, g[t].refs[m], t, k) {
        EmbeddedBefore(g, q, p, m, t, k);
      }
    }
  }

  lemma EmbeddedBefore(g: BtfGraph, q: seq<nat>, p: nat, m: nat, t: nat, k: nat)
    requires GraphOk(g) && WellOrdered(g, q) && p < |q| && q[p] < |g| && Defines(g[q[p]]) && m < |g[q[p]].refs|
    ensures Embeds(g, g[q[p]].refs[m], t, k) ==> t in q[..p]
  {
  }

  /** Nothing that `id` embeds by value embeds itself. */
  ghost predicate EmbedsNoLoop(g: BtfGraph, id: nat)
    requires GraphOk(g) && id < |g|
  {
    forall t, k :: Embeds(g, id, t, k) ==> !EmbedsItself(g, t)
  }

  /** The ways a dump of `id` can end. */
  ghost predicate DumpEnds(g: BtfGraph, id: nat, memory: bool, err: int)
    requires GraphOk(g)
  {
    || (err == 0 && id < |g| && EmbedsNoLoop(g, id))
    || (err == ENOMEM && !memory)
    || (err == EINVAL && (id >= |g| || LeadsToUnknown(g, id)))
    || (err == ELOOP && id < |g| && LeadsToLoop(g, id))
  }

  lemma DumpableEnds(g: BtfGraph, id: nat, memory: bool, err: int)
    requires GraphOk(g) && DumpEnds(g, id, memory, err)
    ensures memory && Dumpable(g, id) ==> err == 0
  {
  }

  /** Any run of dump calls, which succeeds if all the types can be dumped and memory does not run out.
      Then over everything emitted each named struct or union, enum, forward and typedef that its own
      target does not lead back to occurs at most once, each named struct or union and each typedef
      comes after all it embeds, everything embedded in a dumped type has been emitted, and nothing is
      emitted that no dumped type leads to. */
  method DumpAll(types: BtfGraph, referenced: seq<bool>, memory: bool, ids: seq<nat>, ghost rank: seq<nat>)
      returns (ok: bool, emitted: seq<nat>)
    requires GraphOk(types) && |referenced| == |types| && Ranked(types, rank)
    ensures memory && (forall j :: 0 <= j < |ids| ==> Dumpable(types, ids[j])) ==> ok
    ensures ok ==> NoRepeats(types, emitted) && WellOrdered(types, emitted)
    ensures ok ==> EmitsFor(types, referenced, ids, emitted)
    ensures ok ==> forall j :: 0 <= j < |ids| ==> ids[j] < |types| && Satisfied(types, ids[j], emitted)
  {
    var d := new BtfDump(types, referenced, memory);
    emitted := [];
    for i := 0 to |ids|
      invariant d.Valid() && d.NothingUnderWay() && d.types == types && d.memory == memory && emitted == d.queued
      invariant d.referenced == referenced && EmitsFor(types, referenced, ids, emitted)
      invariant forall j :: 0 <= j < i ==> ids[j] < |types| && Satisfied(types, ids[j], emitted)
    {
      ghost var before := emitted;
      var err := d.DumpType(ids[i], rank);
      DumpableEnds(types, ids[i], memory, err);
      if err < 0 { return false, emitted; }
      EmitsForMore(types, referenced, ids, i, emitted, d.emitQueue);
      emitted := emitted + d.emitQueue;
      forall j | 0 <= j < i ensures Satisfied(types, ids[j], emitted) {
        SatisfiedGrows(types, ids[j], before, emitted);
      }
    }
    return true, emitted;
  }
}
