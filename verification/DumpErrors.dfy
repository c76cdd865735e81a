/**
 When the search that orders type definitions fails: it meets a type of unknown kind, or a struct or
 union that leads back to itself by value or without having a name.
 */
module DumpErrors {
  import opened Common
  import opened TypeGraph
  import opened BtfTypes
  import opened DumpSearch

  // ----- trails of types, each reached by value or through a pointer

  /** A struct or union so reached has to be defined first: by value, or because it has no name. */
  predicate Entered(t: BtfType, throughPtr: bool) {
    IsComposite(t) && !(throughPtr && Named(t))
  }

  /** A type that is reached, and whether it is reached through a pointer; what follows from there. */
  predicate Moves(g: BtfGraph, a: nat, m: bool, b: nat, m': bool)
    requires Layouts(g) && a < |g|
  {
    var t := g[a];
    if Kind(t) == KIND_PTR then b == t.refs[0] && m'
    else if IsComposite(t) then Entered(t, m) && b in t.refs && !m'
    else b in Followed(t) && m' == m
  }

  predicate TrailStep(g: BtfGraph, trail: seq<(nat, bool)>, i: nat)
    requires Layouts(g) && 0 < i < |trail| && trail[i - 1].0 < |g|
  {
    Moves(g, trail[i - 1].0, trail[i - 1].1, trail[i].0, trail[i].1)
  }

  ghost predicate IsTrail(g: BtfGraph, trail: seq<(nat, bool)>)
    requires Layouts(g)
  {
    && trail != [] && (forall i :: 0 <= i < |trail| ==> trail[i].0 < |g|)
    && forall i :: 0 < i < |trail| ==> TrailStep(g, trail, i)
  }

  ghost predicate LeadsTo(g: BtfGraph, a: nat, m: bool, b: nat, m': bool)
    requires Layouts(g)
  {
    exists trail :: IsTrail(g, trail) && trail[0] == (a, m) && trail[|trail| - 1] == (b, m')
  }

  /** A struct or union that one of its own members leads back to. */
  ghost predicate LoopsBack(g: BtfGraph, a: nat)
    requires Layouts(g) && a < |g|
  {
    IsComposite(g[a]) && exists c: nat, m :: c in g[a].refs && Entered(g[a], m) && LeadsTo(g, c, false, a, m)
  }

  /** Type `id` leads to a type of unknown kind other than `void`. */
  ghost predicate LeadsToUnknown(g: BtfGraph, id: nat)
    requires Layouts(g)
  {
    exists b: nat, m :: 0 < b < |g| && LeadsTo(g, id, false, b, m) && Kind(g[b]) == KIND_UNKN
  }

  /** It leads to a struct or union that has to be defined first and leads back to itself. */
  ghost predicate LeadsToLoop(g: BtfGraph, id: nat)
    requires Layouts(g)
  {
    exists b: nat, m :: b < |g| && LeadsTo(g, id, false, b, m) && Entered(g[b], m) && LoopsBack(g, b)
  }

  /** Type `id` can be dumped: it leads to no type of unknown kind other than `void`, and to no struct
      or union that leads back to itself. */
  ghost predicate Dumpable(g: BtfGraph, id: nat)
    requires Layouts(g)
  {
    id < |g| && !LeadsToUnknown(g, id) && !LeadsToLoop(g, id)
  }

  lemma LeadsToSelf(g: BtfGraph, a: nat, m: bool)
    requires Layouts(g) && a < |g|
    ensures LeadsTo(g, a, m, a, m)
  {
    assert IsTrail(g, [(a, m)]);
  }

  lemma {:induction false} LeadsOn(g: BtfGraph, a: nat, m: bool, c: nat, k: bool, b: nat, m': bool)
    requires Layouts(g) && a < |g| && Moves(g, a, m, c, k) && LeadsTo(g, c, k, b, m')
    ensures LeadsTo(g, a, m, b, m')
  {
    var trail :| IsTrail(g, trail) && trail[0] == (c, k) && trail[|trail| - 1] == (b, m');
    var longer := [(a, m)] + trail;
    forall i | 0 < i < |longer| ensures longer[i - 1].0 < |g| && TrailStep(g, longer, i) {
      if i > 1 { assert TrailStep(g, trail, i - 1); }
    }
    assert IsTrail(g, longer) && longer[0] == (a, m) && longer[|longer| - 1] == (b, m');
  }

  // ----- why a search fails

  /** From type `a` the search leads to a type of unknown kind that is not finished. */
  ghost predicate MeetsUnknown(g: BtfGraph, st: seq<OrderState>, a: nat, m: bool)
    requires Layouts(g) && |st| == |g|
  {
    exists b: nat, m' :: b < |g| && LeadsTo(g, a, m, b, m') && Kind(g[b]) == KIND_UNKN && st[b] == NotOrdered
  }

  /** It leads back to a struct or union that is under way, or to one that leads back to itself. */
  ghost predicate MeetsLoop(g: BtfGraph, st: seq<OrderState>, a: nat, m: bool)
    requires Layouts(g) && |st| == |g|
  {
    exists b: nat, m' ::
      b < |g| && LeadsTo(g, a, m, b, m') && Entered(g[b], m') && (st[b] == Ordering || LoopsBack(g, b))
  }

  /** The only failures, and their reasons. */
  ghost predicate Blamed(g: BtfGraph, st: seq<OrderState>, a: nat, m: bool, r: int)
    requires Layouts(g) && |st| == |g|
  {
    r < 0 ==> (r == EINVAL && MeetsUnknown(g, st, a, m)) || (r == ELOOP && MeetsLoop(g, st, a, m))
  }

  /** Only structs and unions are under way. */
  predicate UnderWayOk(g: BtfGraph, st: seq<OrderState>) {
    |st| == |g| && forall i :: 0 <= i < |g| && st[i] == Ordering ==> IsComposite(g[i])
  }

  /** What was not looked at is as before, and nothing more is under way. */
  predicate Evolves(st: seq<OrderState>, st': seq<OrderState>) {
    |st| == |st'| && forall i :: 0 <= i < |st| ==>
      (st'[i] == NotOrdered ==> st[i] == NotOrdered) && (st'[i] == Ordering ==> st[i] == Ordering)
  }

  lemma {:induction false} BlamedBefore(g: BtfGraph, st: seq<OrderState>, st': seq<OrderState>, a: nat, m: bool, r: int)
    requires Layouts(g) && |st| == |g| && Evolves(st, st') && Blamed(g, st', a, m, r)
    ensures Blamed(g, st, a, m, r)
  {
  }

  lemma {:induction false} BlamedOn(g: BtfGraph, st: seq<OrderState>, a: nat, m: bool, c: nat, k: bool, r: int)
    requires Layouts(g) && |st| == |g| && a < |g| && Moves(g, a, m, c, k) && Blamed(g, st, c, k, r)
    ensures Blamed(g, st, a, m, r)
  {
    if r == EINVAL {
      var b: nat, m' :| b < |g| && LeadsTo(g, c, k, b, m') && Kind(g[b]) == KIND_UNKN && st[b] == NotOrdered;
      LeadsOn(g, a, m, c, k, b, m');
    } else if r == ELOOP {
      var b: nat, m' :|
        b < |g| && LeadsTo(g, c, k, b, m') && Entered(g[b], m') && (st[b] == Ordering || LoopsBack(g, b));
      LeadsOn(g, a, m, c, k, b, m');
    }
  }

  /** A member's failure, told of the struct or union before it was under way. */
  lemma {:induction false} BlamedInside(g: BtfGraph, st: seq<OrderState>, a: nat, m: bool, c: nat, r: int)
    requires Layouts(g) && |st| == |g| && a < |g| && st[a] == NotOrdered && Entered(g[a], m) && c in g[a].refs
    requires Blamed(g, st[a := Ordering], c, false, r)
    ensures Blamed(g, st, a, m, r)
  {
    var inside := st[a := Ordering];
    if r == EINVAL {
      var b: nat, m' :| b < |g| && LeadsTo(g, c, false, b, m') && Kind(g[b]) == KIND_UNKN && inside[b] == NotOrdered;
      LeadsOn(g, a, m, c, false, b, m');
    } else if r == ELOOP {
      var b: nat, m' :|
        b < |g| && LeadsTo(g, c, false, b, m') && Entered(g[b], m') && (inside[b] == Ordering || LoopsBack(g, b));
      LeadsOn(g, a, m, c, false, b, m');
      if b == a { assert LoopsBack(g, a); }
    }
  }

  // ----- what a search queues

  /** A definition that is emitted, for the sake of a type that leads to it. */
  ghost predicate QueuedFor(g: BtfGraph, referenced: seq<bool>, a: nat, m: bool, b: nat)
    requires Layouts(g) && |referenced| == |g|
  {
    && b < |g|
    && (|| NamedComposite(g[b]) || Kind(g[b]) == KIND_TYPEDEF
        || ((IsEnum(g[b]) || IsFwd(g[b])) && (Named(g[b]) || !referenced[b])))
    && exists m' :: LeadsTo(g, a, m, b, m')
  }

  ghost predicate Queues(g: BtfGraph, referenced: seq<bool>, q: seq<nat>, a: nat, m: bool, q': seq<nat>)
    requires Layouts(g) && |referenced| == |g|
  {
    q <= q' && forall i :: |q| <= i < |q'| ==> QueuedFor(g, referenced, a, m, q'[i])
  }

  lemma {:induction false} QueuesOn(g: BtfGraph, referenced: seq<bool>, q: seq<nat>, a: nat, m: bool, c: nat, k: bool,
                                    q': seq<nat>)
    requires Layouts(g) && |referenced| == |g| && a < |g| && Moves(g, a, m, c, k) && Queues(g, referenced, q, c, k, q')
    ensures Queues(g, referenced, q, a, m, q')
  {
    forall i | |q| <= i < |q'| ensures QueuedFor(g, referenced, a, m, q'[i]) {
      var m' :| LeadsTo(g, c, k, q'[i], m');
      LeadsOn(g, a, m, c, k, q'[i], m');
    }
  }

  /** The type itself is queued last. */
  lemma {:induction false} QueuesLast(g: BtfGraph, referenced: seq<bool>, q: seq<nat>, a: nat, m: bool, q': seq<nat>)
    requires Layouts(g) && |referenced| == |g| && a < |g| && Queues(g, referenced, q, a, m, q')
    requires || NamedComposite(g[a]) || Kind(g[a]) == KIND_TYPEDEF
             || ((IsEnum(g[a]) || IsFwd(g[a])) && (Named(g[a]) || !referenced[a]))
    ensures Queues(g, referenced, q, a, m, q' + [a])
  {
    LeadsToSelf(g, a, m);
    var longer := q' + [a];
    forall i | |q| <= i < |longer| ensures QueuedFor(g, referenced, a, m, longer[i]) {
      if i < |q'| { assert longer[i] == q'[i]; }
    }
  }

  /** What every search keeps, failed or not. */
  ghost predicate Outcome(g: BtfGraph, referenced: seq<bool>, st: seq<OrderState>, q: seq<nat>, a: nat, m: bool,
                          f: Found)
    requires Layouts(g) && |st| == |g| == |referenced|
  {
    && Queues(g, referenced, q, a, m, f.q)
    && f.r <= 1 && Blamed(g, st, a, m, f.r) && UnderWayOk(g, f.st)
    && (f.r >= 0 ==> Evolves(st, f.st))
  }

  lemma {:induction false} SearchOutcome(g: BtfGraph, referenced: seq<bool>, st: seq<OrderState>, q: seq<nat>, id: nat,
                                         throughPtr: bool, n: nat, f: Found)
    requires InputOk(g, referenced, st) && UnderWayOk(g, st) && id < |g|
    requires Search(g, referenced, st, q, id, throughPtr, n) == Some(f)
    ensures Outcome(g, referenced, st, q, id, throughPtr, f)
    decreases n, 0
  {
    var k := Kind(g[id]);
    if st[id] == NotOrdered && (k == KIND_PTR || k == KIND_ARRAY || IsMod(k) || k == KIND_TYPEDEF) {
      TargetOutcome(g, referenced, st, q, id, throughPtr, n, f);
    } else if st[id] == NotOrdered && Entered(g[id], throughPtr) {
      MembersOutcome(g, referenced, st, q, id, throughPtr, n, f);
    } else if st[id] == NotOrdered && k == KIND_FUNC_PROTO {
      ParamsOutcome(g, referenced, st, q, id, throughPtr, n, f);
    } else {
      LeadsToSelf(g, id, throughPtr);
      if f.q != q { QueuesLast(g, referenced, q, id, throughPtr, q); }
    }
  }

  /** The cases that follow one reference. */
  lemma {:induction false} TargetOutcome(g: BtfGraph, referenced: seq<bool>, st: seq<OrderState>, q: seq<nat>, id: nat,
                                         throughPtr: bool, n: nat, f: Found)
    requires InputOk(g, referenced, st) && UnderWayOk(g, st) && id < |g|
    requires Search(g, referenced, st, q, id, throughPtr, n) == Some(f) && n > 0 && st[id] == NotOrdered
    requires var k := Kind(g[id]); k == KIND_PTR || k == KIND_ARRAY || IsMod(k) || k == KIND_TYPEDEF
    ensures Outcome(g, referenced, st, q, id, throughPtr, f)
    decreases n - 1, 1
  {
    var to, thr := g[id].refs[0], throughPtr || Kind(g[id]) == KIND_PTR;
    var f0 := Search(g, referenced, st, q, to, thr, n - 1).value;
    SearchOutcome(g, referenced, st, q, to, thr, n - 1, f0);
    ThroughOutcome(g, referenced, st, q, id, throughPtr, to, thr, f0, f);
  }

  /** Marking a type that is not under way, or leaving it, changes nothing in the outcome. */
  lemma {:induction false} ThroughOutcome(g: BtfGraph, referenced: seq<bool>, st: seq<OrderState>, q: seq<nat>, id: nat,
                                          m: bool, to: nat, thr: bool, f0: Found, f: Found)
    requires Layouts(g) && |st| == |g| == |referenced| == |f0.st| && id < |g| && Moves(g, id, m, to, thr)
    requires Outcome(g, referenced, st, q, to, thr, f0)
    requires f.q == f0.q || (f.q == f0.q + [id] && Kind(g[id]) == KIND_TYPEDEF)
    requires f.r == f0.r || (f.r == 1 && f0.r >= 0)
    requires f.st == f0.st || f.st == f0.st[id := Ordered]
    ensures Outcome(g, referenced, st, q, id, m, f)
  {
    QueuesOn(g, referenced, q, id, m, to, thr, f0.q);
    if f.q != f0.q { QueuesLast(g, referenced, q, id, m, f0.q); }
    BlamedOn(g, st, id, m, to, thr, f0.r);
  }

  lemma {:induction false} MembersOutcome(g: BtfGraph, referenced: seq<bool>, st: seq<OrderState>, q: seq<nat>, id: nat,
                                          throughPtr: bool, n: nat, f: Found)
    requires InputOk(g, referenced, st) && UnderWayOk(g, st) && id < |g|
    requires Search(g, referenced, st, q, id, throughPtr, n) == Some(f) && n > 0 && st[id] == NotOrdered
    requires Entered(g[id], throughPtr)
    ensures Outcome(g, referenced, st, q, id, throughPtr, f)
    decreases n - 1, |g[id].refs| + 2
  {
    var refs, st0 := g[id].refs, st[id := Ordering];
    var f0 := SearchUpTo(g, referenced, st0, q, refs, |refs|, false, n - 1).value;
    ListOutcome(g, referenced, st0, q, refs, |refs|, false, n - 1, f0);
    InsideOutcome(g, referenced, st, q, id, throughPtr, f0, f);
  }

  lemma {:induction false} InsideOutcome(g: BtfGraph, referenced: seq<bool>, st: seq<OrderState>, q: seq<nat>, id: nat,
                                         m: bool, f0: Found, f: Found)
    requires Layouts(g) && |st| == |g| == |referenced| == |f0.st| && id < |g| && st[id] == NotOrdered
    requires UnderWayOk(g, st) && Entered(g[id], m)
    requires ListOutcomeIs(g, referenced, st[id := Ordering], q, g[id].refs, false, f0)
    requires f == Closed(Some(f0), id, Named(g[id])).value
    ensures Outcome(g, referenced, st, q, id, m, f)
  {
    ListQueuesOn(g, referenced, q, id, m, false, f0.q);
    if f.q != f0.q { QueuesLast(g, referenced, q, id, m, f0.q); }
    if f0.r < 0 {
      var c :| c in g[id].refs && Blamed(g, st[id := Ordering], c, false, f0.r);
      BlamedInside(g, st, id, m, c, f0.r);
    }
  }

  lemma {:induction false} ParamsOutcome(g: BtfGraph, referenced: seq<bool>, st: seq<OrderState>, q: seq<nat>, id: nat,
                                         throughPtr: bool, n: nat, f: Found)
    requires InputOk(g, referenced, st) && UnderWayOk(g, st) && id < |g|
    requires Search(g, referenced, st, q, id, throughPtr, n) == Some(f) && n > 0 && st[id] == NotOrdered
    requires Kind(g[id]) == KIND_FUNC_PROTO
    ensures Outcome(g, referenced, st, q, id, throughPtr, f)
    decreases n - 1, |g[id].refs| + 2
  {
    var refs := g[id].refs;
    ListOutcome(g, referenced, st, q, refs, |refs|, throughPtr, n - 1, f);
    AmongOutcome(g, referenced, st, q, id, throughPtr, f);
  }

  lemma {:induction false} AmongOutcome(g: BtfGraph, referenced: seq<bool>, st: seq<OrderState>, q: seq<nat>, id: nat,
                                        m: bool, f: Found)
    requires Layouts(g) && |st| == |g| == |referenced| && id < |g| && Kind(g[id]) == KIND_FUNC_PROTO
    requires ListOutcomeIs(g, referenced, st, q, g[id].refs, m, f)
    ensures Outcome(g, referenced, st, q, id, m, f)
  {
    ListQueuesOn(g, referenced, q, id, m, m, f.q);
    if f.r < 0 {
      var c :| c in g[id].refs && Blamed(g, st, c, m, f.r);
      BlamedOn(g, st, id, m, c, m, f.r);
    }
  }

  /** A list fails because of one of its types. */
  ghost predicate ListBlamed(g: BtfGraph, st: seq<OrderState>, ids: seq<nat>, m: bool, r: int)
    requires Layouts(g) && |st| == |g|
  {
    r < 0 ==> exists c :: c in ids && Blamed(g, st, c, m, r)
  }

  /** A list queues what its types do. */
  ghost predicate ListQueues(g: BtfGraph, referenced: seq<bool>, q: seq<nat>, ids: seq<nat>, m: bool, q': seq<nat>)
    requires Layouts(g) && |referenced| == |g|
  {
    q <= q' && forall i :: |q| <= i < |q'| ==> QueuedForAny(g, referenced, ids, m, q'[i])
  }

  ghost predicate QueuedForAny(g: BtfGraph, referenced: seq<bool>, ids: seq<nat>, m: bool, b: nat)
    requires Layouts(g) && |referenced| == |g|
  {
    exists c :: c in ids && QueuedFor(g, referenced, c, m, b)
  }

  lemma {:induction false} ListQueuesOn(g: BtfGraph, referenced: seq<bool>, q: seq<nat>, a: nat, m: bool, k: bool,
                                        q': seq<nat>)
    requires Layouts(g) && |referenced| == |g| && a < |g| && ListQueues(g, referenced, q, g[a].refs, k, q')
    requires forall c :: c in g[a].refs ==> Moves(g, a, m, c, k)
    ensures Queues(g, referenced, q, a, m, q')
  {
    forall i | |q| <= i < |q'| ensures QueuedFor(g, referenced, a, m, q'[i]) {
      var c :| c in g[a].refs && QueuedFor(g, referenced, c, k, q'[i]);
      var m' :| LeadsTo(g, c, k, q'[i], m');
      LeadsOn(g, a, m, c, k, q'[i], m');
    }
  }

  ghost predicate ListOutcomeIs(g: BtfGraph, referenced: seq<bool>, st: seq<OrderState>, q: seq<nat>, ids: seq<nat>,
                                m: bool, f: Found)
    requires Layouts(g) && |st| == |g| == |referenced|
  {
    && ListQueues(g, referenced, q, ids, m, f.q)
    && f.r <= 1 && ListBlamed(g, st, ids, m, f.r) && UnderWayOk(g, f.st)
    && (f.r >= 0 ==> Evolves(st, f.st))
  }

  lemma {:induction false} ListOutcome(g: BtfGraph, referenced: seq<bool>, st: seq<OrderState>, q: seq<nat>,
                                       ids: seq<nat>, i: nat, throughPtr: bool, n: nat, f: Found)
    requires InputOk(g, referenced, st) && UnderWayOk(g, st) && i <= |ids|
    requires forall j :: 0 <= j < |ids| ==> ids[j] < |g|
    requires SearchUpTo(g, referenced, st, q, ids, i, throughPtr, n) == Some(f)
    ensures ListOutcomeIs(g, referenced, st, q, ids, throughPtr, f)
    decreases n, i + 1
  {
    if i > 0 {
      var before := SearchUpTo(g, referenced, st, q, ids, i - 1, throughPtr, n).value;
      ListOutcome(g, referenced, st, q, ids, i - 1, throughPtr, n, before);
      if before.r >= 0 {
        var last := Search(g, referenced, before.st, before.q, ids[i - 1], throughPtr, n).value;
        SearchOutcome(g, referenced, before.st, before.q, ids[i - 1], throughPtr, n, last);
        NextOutcome(g, referenced, st, q, ids, throughPtr, before, ids[i - 1], last, f);
      }
    }
  }

  lemma {:induction false} NextOutcome(g: BtfGraph, referenced: seq<bool>, st: seq<OrderState>, q: seq<nat>,
                                       ids: seq<nat>, m: bool, before: Found, id: nat, last: Found, f: Found)
    requires Layouts(g) && |st| == |g| == |referenced| == |before.st| && id in ids && before.r >= 0
    requires ListOutcomeIs(g, referenced, st, q, ids, m, before)
    requires Outcome(g, referenced, before.st, before.q, id, m, last)
    requires f.st == last.st && f.q == last.q && f.r == if last.r == 0 then before.r else last.r
    ensures ListOutcomeIs(g, referenced, st, q, ids, m, f)
  {
    forall i | |q| <= i < |f.q| ensures QueuedForAny(g, referenced, ids, m, f.q[i]) {
      if i < |before.q| { assert f.q[i] == before.q[i]; } else { assert QueuedFor(g, referenced, id, m, f.q[i]); }
    }
    BlamedBefore(g, st, before.st, id, m, last.r);
  }

  /** A search of a type that can be dumped does not fail when no other is under way. */
  lemma {:induction false} FollowsOutcome(g: BtfGraph, referenced: seq<bool>, st: seq<OrderState>, q: seq<nat>, id: nat,
                                          f: Found)
    requires InputOk(g, referenced, st) && id < |g| && Follows(g, referenced, st, q, id, false, f)
    requires st[0] == Ordered && forall i :: 0 <= i < |g| ==> st[i] != Ordering
    ensures f.r < 0 ==> f.r == EINVAL || f.r == ELOOP
    ensures f.r == EINVAL ==> LeadsToUnknown(g, id)
    ensures f.r == ELOOP ==> LeadsToLoop(g, id)
    ensures f.r <= 1 && Queues(g, referenced, q, id, false, f.q)
  {
    var n: nat :| Search(g, referenced, st, q, id, false, n) == Some(f);
    SearchOutcome(g, referenced, st, q, id, false, n, f);
  }
}
