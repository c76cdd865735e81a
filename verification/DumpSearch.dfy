/**
 The search that orders type definitions, as a function: what it queues and which types it marks
 when all allocations are granted.
 */
module DumpSearch {
  import opened Common
  import opened TypeGraph
  import opened BtfTypes

  datatype OrderState = NotOrdered | Ordering | Ordered

  predicate Named(t: BtfType) { t.sig.name != 0 }
  predicate NamedComposite(t: BtfType) { IsComposite(t) && Named(t) }
  predicate IsMod(k: nat) { k == KIND_VOLATILE || k == KIND_CONST || k == KIND_RESTRICT }

  /** The references the search follows from a type that is no struct or union. */
  function Followed(t: BtfType): seq<nat>
    requires Layout(t)
  {
    var k := Kind(t);
    if k == KIND_PTR || k == KIND_TYPEDEF || IsMod(k) then t.refs
    else if k == KIND_ARRAY then [t.refs[0]]
    else if k == KIND_FUNC_PROTO then t.refs
    else []
  }

  /** The references the search follows from any type. */
  function Searched(t: BtfType): seq<nat>
    requires Layout(t)
  {
    if IsComposite(t) then t.refs else Followed(t)
  }

  ghost predicate GraphOk(g: BtfGraph) {
    |g| > 0 && WellFormed(g) && Layouts(g) && Kind(g[0]) == KIND_UNKN
  }

  // ----- the search

  /** The result of a search, 1 for a strong link, 0 for a weak one and negative on error, with the
      states and the queue it leaves. */
  datatype Found = Found(r: int, st: seq<OrderState>, q: seq<nat>)

  predicate InputOk(g: BtfGraph, referenced: seq<bool>, st: seq<OrderState>) {
    |g| > 0 && WellFormed(g) && Layouts(g) && |referenced| == |g| == |st|
  }

  /** `btf_dump_order_type`, to a depth of `n` calls. */
  function Search(g: BtfGraph, referenced: seq<bool>, st: seq<OrderState>, q: seq<nat>, id: nat, throughPtr: bool,
                  n: nat): (f: Option<Found>)
    requires InputOk(g, referenced, st) && id < |g|
    ensures f.Some? ==> |f.value.st| == |g|
    decreases n, 0
  {
    var t := g[id];
    var k := Kind(t);
    if n == 0 then None
    else if st[id] == Ordered then Some(Found(1, st, q))
    else if st[id] == Ordering then
      Some(Found(if IsComposite(t) && throughPtr && Named(t) then 0 else ELOOP, st, q))
    else if k == KIND_INT || k == KIND_FUNC || k == KIND_VAR || k == KIND_DATASEC then
      Some(Found(0, st[id := Ordered], q))
    else if k == KIND_PTR then Marked(Search(g, referenced, st, q, t.refs[0], true, n - 1), id)
    else if k == KIND_ARRAY || IsMod(k) then Search(g, referenced, st, q, t.refs[0], throughPtr, n - 1)
    else if IsComposite(t) then
      if throughPtr && Named(t) then Some(Found(0, st, q))
      else
        Closed(SearchUpTo(g, referenced, st[id := Ordering], q, t.refs, |t.refs|, false, n - 1), id, Named(t))
    else if k == KIND_ENUM || k == KIND_FWD then
      Some(Found(1, st[id := Ordered], if Named(t) || !referenced[id] then q + [id] else q))
    else if k == KIND_TYPEDEF then
      Aliased(Search(g, referenced, st, q, t.refs[0], throughPtr, n - 1), id, throughPtr)
    else if k == KIND_FUNC_PROTO then SearchUpTo(g, referenced, st, q, t.refs, |t.refs|, throughPtr, n - 1)
    else Some(Found(EINVAL, st, q))
  }

  /** The first `i` types of a list, one after the other; 1 if one of them is a strong link. */
  function SearchUpTo(g: BtfGraph, referenced: seq<bool>, st: seq<OrderState>, q: seq<nat>, ids: seq<nat>, i: nat,
                      throughPtr: bool, n: nat): (f: Option<Found>)
    requires InputOk(g, referenced, st) && i <= |ids| && forall j :: 0 <= j < |ids| ==> ids[j] < |g|
    ensures f.Some? ==> |f.value.st| == |g|
    decreases n, i + 1
  {
    if i == 0 then Some(Found(0, st, q))
    else
      match SearchUpTo(g, referenced, st, q, ids, i - 1, throughPtr, n)
      case None => None
      case Some(before) =>
        if before.r < 0 then Some(before)
        else
          match Search(g, referenced, before.st, before.q, ids[i - 1], throughPtr, n)
          case None => None
          case Some(f) => Some(if f.r == 0 then f.(r := before.r) else f)
  }

  /** A pointer is ordered once what it points to has been searched. */
  function Marked(f: Option<Found>, id: nat): (r: Option<Found>)
    requires f.Some? ==> id < |f.value.st|
  {
    if f.None? then None else Some(f.value.(st := f.value.st[id := Ordered]))
  }

  /** A struct or union is queued, if named, and ordered after its members. */
  function Closed(f: Option<Found>, id: nat, named: bool): (r: Option<Found>)
    requires f.Some? ==> id < |f.value.st|
  {
    if f.None? || f.value.r < 0 then f
    else Some(Found(1, f.value.st[id := Ordered], if named then f.value.q + [id] else f.value.q))
  }

  /** A typedef is queued and ordered after its target, unless that is a weak link through a pointer. */
  function Aliased(f: Option<Found>, id: nat, throughPtr: bool): (r: Option<Found>)
    requires f.Some? ==> id < |f.value.st|
  {
    if f.None? || f.value.r < 0 || (throughPtr && f.value.r == 0) then f
    else Some(Found(1, f.value.st[id := Ordered], f.value.q + [id]))
  }

  // ----- more depth changes nothing

  lemma {:induction false} SearchDeeper(g: BtfGraph, referenced: seq<bool>, st: seq<OrderState>, q: seq<nat>, id: nat,
                                        throughPtr: bool, n: nat, n': nat)
    requires InputOk(g, referenced, st) && id < |g| && n <= n'
    requires Search(g, referenced, st, q, id, throughPtr, n).Some?
    ensures Search(g, referenced, st, q, id, throughPtr, n') == Search(g, referenced, st, q, id, throughPtr, n)
    decreases n, 0
  {
    var t := g[id];
    var k := Kind(t);
    if st[id] == NotOrdered {
      if k == KIND_PTR {
        SearchDeeper(g, referenced, st, q, t.refs[0], true, n - 1, n' - 1);
      } else if k == KIND_ARRAY || IsMod(k) || k == KIND_TYPEDEF {
        SearchDeeper(g, referenced, st, q, t.refs[0], throughPtr, n - 1, n' - 1);
      } else if IsComposite(t) && !(throughPtr && Named(t)) {
        ListDeeper(g, referenced, st[id := Ordering], q, t.refs, |t.refs|, false, n - 1, n' - 1);
      } else if k == KIND_FUNC_PROTO {
        ListDeeper(g, referenced, st, q, t.refs, |t.refs|, throughPtr, n - 1, n' - 1);
      }
    }
  }

  lemma {:induction false} ListDeeper(g: BtfGraph, referenced: seq<bool>, st: seq<OrderState>, q: seq<nat>,
                                      ids: seq<nat>,
                                      i: nat, throughPtr: bool, n: nat, n': nat)
    requires InputOk(g, referenced, st) && i <= |ids| && (forall j :: 0 <= j < |ids| ==> ids[j] < |g|) && n <= n'
    requires SearchUpTo(g, referenced, st, q, ids, i, throughPtr, n).Some?
    ensures SearchUpTo(g, referenced, st, q, ids, i, throughPtr, n')
            == SearchUpTo(g, referenced, st, q, ids, i, throughPtr, n)
    decreases n, i + 1
  {
    if i > 0 {
      ListDeeper(g, referenced, st, q, ids, i - 1, throughPtr, n, n');
      var before := SearchUpTo(g, referenced, st, q, ids, i - 1, throughPtr, n).value;
      if before.r >= 0 {
        SearchDeeper(g, referenced, before.st, before.q, ids[i - 1], throughPtr, n, n');
      }
    }
  }

  // ----- searches of some depth

  /** The search ends with `f`. */
  ghost predicate Follows(g: BtfGraph, referenced: seq<bool>, st: seq<OrderState>, q: seq<nat>, id: nat,
                          throughPtr: bool,
                          f: Found)
    requires InputOk(g, referenced, st) && id < |g|
  {
    exists n: nat :: Search(g, referenced, st, q, id, throughPtr, n) == Some(f)
  }

  ghost predicate FollowsList(g: BtfGraph, referenced: seq<bool>, st: seq<OrderState>, q: seq<nat>, ids: seq<nat>,
                              i: nat,
                              throughPtr: bool, f: Found)
    requires InputOk(g, referenced, st) && i <= |ids| && forall j :: 0 <= j < |ids| ==> ids[j] < |g|
  {
    exists n: nat :: SearchUpTo(g, referenced, st, q, ids, i, throughPtr, n) == Some(f)
  }

  /** A search ends in one way only. */
  lemma {:induction false} FollowsUnique(g: BtfGraph, referenced: seq<bool>, st: seq<OrderState>, q: seq<nat>, id: nat,
                                         throughPtr: bool, f: Found, f': Found)
    requires InputOk(g, referenced, st) && id < |g| && Follows(g, referenced, st, q, id, throughPtr, f)
    requires Follows(g, referenced, st, q, id, throughPtr, f')
    ensures f == f'
  {
    var m: nat :| Search(g, referenced, st, q, id, throughPtr, m) == Some(f);
    var n: nat :| Search(g, referenced, st, q, id, throughPtr, n) == Some(f');
    if m <= n {
      SearchDeeper(g, referenced, st, q, id, throughPtr, m, n);
    } else {
      SearchDeeper(g, referenced, st, q, id, throughPtr, n, m);
    }
  }

  /** A search that needs no other. */
  lemma {:induction false} FollowsAtOnce(g: BtfGraph, referenced: seq<bool>, st: seq<OrderState>, q: seq<nat>, id: nat,
                                         throughPtr: bool)
    requires InputOk(g, referenced, st) && id < |g| && Search(g, referenced, st, q, id, throughPtr, 1).Some?
    ensures Follows(g, referenced, st, q, id, throughPtr, Search(g, referenced, st, q, id, throughPtr, 1).value)
  {
  }

  /** The searches that need no other, case by case. */
  lemma {:induction false} FollowsLeaf(g: BtfGraph, referenced: seq<bool>, st: seq<OrderState>, q: seq<nat>, id: nat,
                                       throughPtr: bool)
    requires InputOk(g, referenced, st) && id < |g|
    ensures st[id] == Ordered ==> Follows(g, referenced, st, q, id, throughPtr, Found(1, st, q))
    ensures st[id] != Ordered && throughPtr && NamedComposite(g[id]) ==>
              Follows(g, referenced, st, q, id, throughPtr, Found(0, st, q))
    ensures st[id] == Ordering && !(throughPtr && NamedComposite(g[id])) ==>
              Follows(g, referenced, st, q, id, throughPtr, Found(ELOOP, st, q))
    ensures st[id] == NotOrdered && Kind(g[id]) == KIND_UNKN ==>
              Follows(g, referenced, st, q, id, throughPtr, Found(EINVAL, st, q))
    ensures st[id] == NotOrdered && Kind(g[id]) in {KIND_INT, KIND_FUNC, KIND_VAR, KIND_DATASEC} ==>
              Follows(g, referenced, st, q, id, throughPtr, Found(0, st[id := Ordered], q))
    ensures st[id] == NotOrdered && Kind(g[id]) in {KIND_ENUM, KIND_FWD} ==>
              Follows(g, referenced, st, q, id, throughPtr,
                      Found(1, st[id := Ordered], q + if Named(g[id]) || !referenced[id] then [id] else []))
  {
    if Search(g, referenced, st, q, id, throughPtr, 1).Some? {
      FollowsAtOnce(g, referenced, st, q, id, throughPtr);
      assert q + [] == q;
    }
  }

  lemma {:induction false} FollowsPtr(g: BtfGraph, referenced: seq<bool>, st: seq<OrderState>, q: seq<nat>, id: nat,
                                      throughPtr: bool, f: Found)
    requires InputOk(g, referenced, st) && id < |g| && st[id] == NotOrdered && Kind(g[id]) == KIND_PTR
    requires Follows(g, referenced, st, q, g[id].refs[0], true, f) && |f.st| == |g|
    ensures Follows(g, referenced, st, q, id, throughPtr, f.(st := f.st[id := Ordered]))
  {
    var n: nat :| Search(g, referenced, st, q, g[id].refs[0], true, n) == Some(f);
    assert Search(g, referenced, st, q, id, throughPtr, n + 1) == Some(f.(st := f.st[id := Ordered]));
  }

  lemma {:induction false} FollowsElement(g: BtfGraph, referenced: seq<bool>, st: seq<OrderState>, q: seq<nat>, id: nat,
                                          throughPtr: bool, f: Found)
    requires InputOk(g, referenced, st) && id < |g| && st[id] == NotOrdered
    requires Kind(g[id]) == KIND_ARRAY || IsMod(Kind(g[id]))
    requires Follows(g, referenced, st, q, g[id].refs[0], throughPtr, f)
    ensures Follows(g, referenced, st, q, id, throughPtr, f)
  {
    var n: nat :| Search(g, referenced, st, q, g[id].refs[0], throughPtr, n) == Some(f);
    assert Search(g, referenced, st, q, id, throughPtr, n + 1) == Some(f);
  }

  lemma {:induction false} FollowsComposite(g: BtfGraph, referenced: seq<bool>, st: seq<OrderState>, q: seq<nat>,
                                            id: nat,
                                            throughPtr: bool, f: Found)
    requires InputOk(g, referenced, st) && id < |g| && st[id] == NotOrdered && IsComposite(g[id])
    requires !(throughPtr && Named(g[id]))
    requires FollowsList(g, referenced, st[id := Ordering], q, g[id].refs, |g[id].refs|, false, f)
    requires |f.st| == |g| && f.r >= 0
    ensures Follows(g, referenced, st, q, id, throughPtr,
                    Found(1, f.st[id := Ordered], if Named(g[id]) then f.q + [id] else f.q))
  {
    var n: nat :| SearchUpTo(g, referenced, st[id := Ordering], q, g[id].refs, |g[id].refs|, false, n) == Some(f);
    assert Search(g, referenced, st, q, id, throughPtr, n + 1)
           == Some(Found(1, f.st[id := Ordered], if Named(g[id]) then f.q + [id] else f.q));
  }

  /** A struct or union is left under way when one of its members fails. */
  lemma {:induction false} FollowsFailed(g: BtfGraph, referenced: seq<bool>, st: seq<OrderState>, q: seq<nat>, id: nat,
                                         throughPtr: bool, f: Found)
    requires InputOk(g, referenced, st) && id < |g| && st[id] == NotOrdered && IsComposite(g[id])
    requires !(throughPtr && Named(g[id]))
    requires FollowsList(g, referenced, st[id := Ordering], q, g[id].refs, |g[id].refs|, false, f)
    requires |f.st| == |g| && f.r < 0
    ensures Follows(g, referenced, st, q, id, throughPtr, f)
  {
    var n: nat :| SearchUpTo(g, referenced, st[id := Ordering], q, g[id].refs, |g[id].refs|, false, n) == Some(f);
    assert Search(g, referenced, st, q, id, throughPtr, n + 1) == Some(f);
  }

  lemma {:induction false} FollowsTypedef(g: BtfGraph, referenced: seq<bool>, st: seq<OrderState>, q: seq<nat>, id: nat,
                                          throughPtr: bool, f: Found)
    requires InputOk(g, referenced, st) && id < |g| && st[id] == NotOrdered && Kind(g[id]) == KIND_TYPEDEF
    requires Follows(g, referenced, st, q, g[id].refs[0], throughPtr, f) && |f.st| == |g|
    ensures Follows(g, referenced, st, q, id, throughPtr, Aliased(Some(f), id, throughPtr).value)
  {
    var n: nat :| Search(g, referenced, st, q, g[id].refs[0], throughPtr, n) == Some(f);
    assert Search(g, referenced, st, q, id, throughPtr, n + 1) == Aliased(Some(f), id, throughPtr);
  }

  lemma {:induction false} FollowsProto(g: BtfGraph, referenced: seq<bool>, st: seq<OrderState>, q: seq<nat>, id: nat,
                                        throughPtr: bool, f: Found)
    requires InputOk(g, referenced, st) && id < |g| && st[id] == NotOrdered && Kind(g[id]) == KIND_FUNC_PROTO
    requires FollowsList(g, referenced, st, q, g[id].refs, |g[id].refs|, throughPtr, f)
    ensures Follows(g, referenced, st, q, id, throughPtr, f)
  {
    var n: nat :| SearchUpTo(g, referenced, st, q, g[id].refs, |g[id].refs|, throughPtr, n) == Some(f);
    assert Search(g, referenced, st, q, id, throughPtr, n + 1) == Some(f);
  }

  lemma {:induction false} FollowsNone(g: BtfGraph, referenced: seq<bool>, st: seq<OrderState>, q: seq<nat>,
                                       ids: seq<nat>,
                                       throughPtr: bool)
    requires InputOk(g, referenced, st) && forall j :: 0 <= j < |ids| ==> ids[j] < |g|
    ensures FollowsList(g, referenced, st, q, ids, 0, throughPtr, Found(0, st, q))
  {
    assert SearchUpTo(g, referenced, st, q, ids, 0, throughPtr, 0) == Some(Found(0, st, q));
  }

  /** One more type of a list. */
  lemma {:induction false} FollowsNext(g: BtfGraph, referenced: seq<bool>, st: seq<OrderState>, q: seq<nat>,
                                       ids: seq<nat>,
                                       i: nat, throughPtr: bool, before: Found, f: Found)
    requires InputOk(g, referenced, st) && i < |ids| && forall j :: 0 <= j < |ids| ==> ids[j] < |g|
    requires FollowsList(g, referenced, st, q, ids, i, throughPtr, before) && |before.st| == |g| && before.r >= 0
    requires Follows(g, referenced, before.st, before.q, ids[i], throughPtr, f)
    ensures FollowsList(g, referenced, st, q, ids, i + 1, throughPtr, if f.r == 0 then f.(r := before.r) else f)
  {
    var m: nat :| SearchUpTo(g, referenced, st, q, ids, i, throughPtr, m) == Some(before);
    var n: nat :| Search(g, referenced, before.st, before.q, ids[i], throughPtr, n) == Some(f);
    var d := if m < n then n else m;
    ListDeeper(g, referenced, st, q, ids, i, throughPtr, m, d);
    SearchDeeper(g, referenced, before.st, before.q, ids[i], throughPtr, n, d);
    assert SearchUpTo(g, referenced, st, q, ids, i + 1, throughPtr, d)
           == Some(if f.r == 0 then f.(r := before.r) else f);
  }

  /** The first failure ends a list. */
  lemma {:induction false} FollowsStopped(g: BtfGraph, referenced: seq<bool>, st: seq<OrderState>, q: seq<nat>,
                                          ids: seq<nat>, i: nat, throughPtr: bool, f: Found)
    requires InputOk(g, referenced, st) && i <= |ids| && forall j :: 0 <= j < |ids| ==> ids[j] < |g|
    requires FollowsList(g, referenced, st, q, ids, i, throughPtr, f) && f.r < 0
    ensures FollowsList(g, referenced, st, q, ids, |ids|, throughPtr, f)
  {
    var n: nat :| SearchUpTo(g, referenced, st, q, ids, i, throughPtr, n) == Some(f);
    StopsThere(g, referenced, st, q, ids, i, |ids|, throughPtr, n, f);
  }

  lemma {:induction false} StopsThere(g: BtfGraph, referenced: seq<bool>, st: seq<OrderState>, q: seq<nat>,
                                      ids: seq<nat>, i: nat, k: nat, throughPtr: bool, n: nat, f: Found)
    requires InputOk(g, referenced, st) && i <= k <= |ids| && forall j :: 0 <= j < |ids| ==> ids[j] < |g|
    requires SearchUpTo(g, referenced, st, q, ids, i, throughPtr, n) == Some(f) && f.r < 0
    ensures SearchUpTo(g, referenced, st, q, ids, k, throughPtr, n) == Some(f)
    decreases k
  {
    if i < k { StopsThere(g, referenced, st, q, ids, i, k - 1, throughPtr, n, f); }
  }

  // ----- which states a search touches

  /** `path` leads from type to type along the references the search follows. */
  ghost predicate IsPath(g: BtfGraph, path: seq<nat>)
    requires Layouts(g)
  {
    path != [] && (forall i :: 0 <= i < |path| ==> path[i] < |g|) && forall i :: 0 < i < |path| ==> PathStep(g, path, i)
  }

  predicate PathStep(g: BtfGraph, path: seq<nat>, i: nat)
    requires Layouts(g) && 0 < i < |path| && path[i - 1] < |g|
  {
    path[i] in Searched(g[path[i - 1]])
  }

  ghost predicate Reaches(g: BtfGraph, a: nat, b: nat)
    requires Layouts(g)
  {
    exists path: seq<nat> :: IsPath(g, path) && path[0] == a && path[|path| - 1] == b
  }

  lemma ReachesSelf(g: BtfGraph, a: nat)
    requires Layouts(g) && a < |g|
    ensures Reaches(g, a, a)
  {
    assert IsPath(g, [a]);
  }

  lemma {:induction false} ReachesOn(g: BtfGraph, a: nat, c: nat, b: nat)
    requires Layouts(g) && a < |g| && c in Searched(g[a]) && Reaches(g, c, b)
    ensures Reaches(g, a, b)
  {
    var path: seq<nat> :| IsPath(g, path) && path[0] == c && path[|path| - 1] == b;
    var longer := [a] + path;
    forall i | 0 < i < |longer| ensures longer[i - 1] < |g| && PathStep(g, longer, i) {
      if i > 1 { assert PathStep(g, path, i - 1); }
    }
    assert IsPath(g, longer) && longer[0] == a && longer[|longer| - 1] == b;
  }

  /** Only types that can be reached change state. */
  ghost predicate Touches(g: BtfGraph, id: nat, st: seq<OrderState>, st': seq<OrderState>)
    requires Layouts(g)
  {
    |st| == |st'| == |g| && forall i :: 0 <= i < |g| && st'[i] != st[i] ==> Reaches(g, id, i)
  }

  ghost predicate TouchesFrom(g: BtfGraph, ids: seq<nat>, st: seq<OrderState>, st': seq<OrderState>)
    requires Layouts(g)
  {
    |st| == |st'| == |g| && forall i :: 0 <= i < |g| && st'[i] != st[i] ==> exists c :: c in ids && Reaches(g, c, i)
  }

  /** What the search of references touches, the search of the type does. */
  lemma {:induction false} TouchesOn(g: BtfGraph, id: nat, ids: seq<nat>, st: seq<OrderState>, st': seq<OrderState>,
                                     st'': seq<OrderState>)
    requires Layouts(g) && id < |g| && TouchesFrom(g, ids, st, st') && |st''| == |g|
    requires forall c :: c in ids ==> c in Searched(g[id])
    requires forall i :: 0 <= i < |g| && i != id ==> st''[i] == st'[i]
    ensures Touches(g, id, st, st'')
  {
    forall i | 0 <= i < |g| && st''[i] != st[i] ensures Reaches(g, id, i) {
      if i == id {
        ReachesSelf(g, id);
      } else {
        var c :| c in ids && Reaches(g, c, i);
        ReachesOn(g, id, c, i);
      }
    }
  }

  lemma {:induction false} TouchesThrough(g: BtfGraph, id: nat, st: seq<OrderState>, st': seq<OrderState>,
                                          st'': seq<OrderState>)
    requires Layouts(g) && id < |g| && Searched(g[id]) != [] && Touches(g, Searched(g[id])[0], st, st') && |st''| == |g|
    requires forall i :: 0 <= i < |g| && i != id ==> st''[i] == st'[i]
    ensures Touches(g, id, st, st'')
  {
    assert TouchesFrom(g, [Searched(g[id])[0]], st, st');
    TouchesOn(g, id, [Searched(g[id])[0]], st, st', st'');
  }

  lemma {:induction false} SearchTouches(g: BtfGraph, referenced: seq<bool>, st: seq<OrderState>, q: seq<nat>, id: nat,
                                         throughPtr: bool, n: nat)
    requires InputOk(g, referenced, st) && id < |g| && Search(g, referenced, st, q, id, throughPtr, n).Some?
    ensures Touches(g, id, st, Search(g, referenced, st, q, id, throughPtr, n).value.st)
    decreases n, 0
  {
    var k := Kind(g[id]);
    if st[id] == NotOrdered && (k == KIND_PTR || k == KIND_ARRAY || IsMod(k) || k == KIND_TYPEDEF) {
      TargetTouches(g, referenced, st, q, id, throughPtr, n);
    } else if st[id] == NotOrdered && IsComposite(g[id]) && !(throughPtr && Named(g[id])) {
      MembersTouch(g, referenced, st, q, id, throughPtr, n);
    } else if st[id] == NotOrdered && k == KIND_FUNC_PROTO {
      ParamsTouch(g, referenced, st, q, id, throughPtr, n);
    } else {
      ReachesSelf(g, id);
    }
  }

  /** The cases that follow one reference. */
  lemma {:induction false} TargetTouches(g: BtfGraph, referenced: seq<bool>, st: seq<OrderState>, q: seq<nat>, id: nat,
                                         throughPtr: bool, n: nat)
    requires InputOk(g, referenced, st) && id < |g| && Search(g, referenced, st, q, id, throughPtr, n).Some?
    requires n > 0 && st[id] == NotOrdered
    requires var k := Kind(g[id]); k == KIND_PTR || k == KIND_ARRAY || IsMod(k) || k == KIND_TYPEDEF
    ensures Touches(g, id, st, Search(g, referenced, st, q, id, throughPtr, n).value.st)
    decreases n - 1, 1
  {
    var to, thr := g[id].refs[0], throughPtr || Kind(g[id]) == KIND_PTR;
    SearchTouches(g, referenced, st, q, to, thr, n - 1);
    TouchesThrough(g, id, st, Search(g, referenced, st, q, to, thr, n - 1).value.st,
                   Search(g, referenced, st, q, id, throughPtr, n).value.st);
  }

  /** The cases that follow a list of references. */
  lemma {:induction false} MembersTouch(g: BtfGraph, referenced: seq<bool>, st: seq<OrderState>, q: seq<nat>, id: nat,
                                        throughPtr: bool, n: nat)
    requires InputOk(g, referenced, st) && id < |g| && Search(g, referenced, st, q, id, throughPtr, n).Some?
    requires n > 0 && st[id] == NotOrdered && IsComposite(g[id]) && !(throughPtr && Named(g[id]))
    ensures Touches(g, id, st, Search(g, referenced, st, q, id, throughPtr, n).value.st)
    decreases n - 1, |g[id].refs| + 2
  {
    var refs, st0 := g[id].refs, st[id := Ordering];
    ListTouches(g, referenced, st0, q, refs, |refs|, false, n - 1);
    var f := SearchUpTo(g, referenced, st0, q, refs, |refs|, false, n - 1);
    assert Search(g, referenced, st, q, id, throughPtr, n) == Closed(f, id, Named(g[id]));
    TouchesOn(g, id, refs, st0, f.value.st, Closed(f, id, Named(g[id])).value.st);
    ReachesSelf(g, id);
  }

  lemma {:induction false} ParamsTouch(g: BtfGraph, referenced: seq<bool>, st: seq<OrderState>, q: seq<nat>, id: nat,
                                       throughPtr: bool, n: nat)
    requires InputOk(g, referenced, st) && id < |g| && Search(g, referenced, st, q, id, throughPtr, n).Some?
    requires n > 0 && st[id] == NotOrdered && Kind(g[id]) == KIND_FUNC_PROTO
    ensures Touches(g, id, st, Search(g, referenced, st, q, id, throughPtr, n).value.st)
    decreases n - 1, |g[id].refs| + 2
  {
    var refs := g[id].refs;
    ListTouches(g, referenced, st, q, refs, |refs|, throughPtr, n - 1);
    var st' := SearchUpTo(g, referenced, st, q, refs, |refs|, throughPtr, n - 1).value.st;
    TouchesOn(g, id, refs, st, st', st');
  }

  lemma {:induction false} ListTouches(g: BtfGraph, referenced: seq<bool>, st: seq<OrderState>, q: seq<nat>,
                                       ids: seq<nat>,
                                       i: nat, throughPtr: bool, n: nat)
    requires InputOk(g, referenced, st) && i <= |ids| && forall j :: 0 <= j < |ids| ==> ids[j] < |g|
    requires SearchUpTo(g, referenced, st, q, ids, i, throughPtr, n).Some?
    ensures TouchesFrom(g, ids, st, SearchUpTo(g, referenced, st, q, ids, i, throughPtr, n).value.st)
    decreases n, i + 1
  {
    if i > 0 {
      ListTouches(g, referenced, st, q, ids, i - 1, throughPtr, n);
      var before := SearchUpTo(g, referenced, st, q, ids, i - 1, throughPtr, n).value;
      if before.r >= 0 {
        SearchTouches(g, referenced, before.st, before.q, ids[i - 1], throughPtr, n);
        assert ids[i - 1] in ids;
      }
    }
  }

  lemma {:induction false} FollowsTouches(g: BtfGraph, referenced: seq<bool>, st: seq<OrderState>, q: seq<nat>, id: nat,
                                          throughPtr: bool, f: Found)
    requires InputOk(g, referenced, st) && id < |g| && Follows(g, referenced, st, q, id, throughPtr, f)
    ensures Touches(g, id, st, f.st)
  {
    var n: nat :| Search(g, referenced, st, q, id, throughPtr, n) == Some(f);
    SearchTouches(g, referenced, st, q, id, throughPtr, n);
  }

  // ----- when a typedef is queued twice

  /** Type `t` is marked as ordered exactly if it has been queued. */
  predicate MarkedIfQueued(st: seq<OrderState>, q: seq<nat>, t: nat)
    requires t < |st|
  {
    st[t] == Ordered <==> t in q
  }

  /** Typedefs are marked when they are queued, and at no other time. */
  lemma {:induction false} SearchMarks(g: BtfGraph, referenced: seq<bool>, st: seq<OrderState>, q: seq<nat>, id: nat,
                                       throughPtr: bool, n: nat, t: nat)
    requires InputOk(g, referenced, st) && id < |g| && Search(g, referenced, st, q, id, throughPtr, n).Some?
    requires t < |g| && Kind(g[t]) == KIND_TYPEDEF && MarkedIfQueued(st, q, t)
    ensures var f := Search(g, referenced, st, q, id, throughPtr, n).value; MarkedIfQueued(f.st, f.q, t)
    decreases n, 0
  {
    var k := Kind(g[id]);
    if st[id] == NotOrdered && k == KIND_PTR {
      SearchMarks(g, referenced, st, q, g[id].refs[0], true, n - 1, t);
    } else if st[id] == NotOrdered && (k == KIND_ARRAY || IsMod(k) || k == KIND_TYPEDEF) {
      SearchMarks(g, referenced, st, q, g[id].refs[0], throughPtr, n - 1, t);
    } else if st[id] == NotOrdered && IsComposite(g[id]) && !(throughPtr && Named(g[id])) {
      ListMarks(g, referenced, st[id := Ordering], q, g[id].refs, |g[id].refs|, false, n - 1, t);
    } else if st[id] == NotOrdered && k == KIND_FUNC_PROTO {
      ListMarks(g, referenced, st, q, g[id].refs, |g[id].refs|, throughPtr, n - 1, t);
    }
  }

  lemma {:induction false} ListMarks(g: BtfGraph, referenced: seq<bool>, st: seq<OrderState>, q: seq<nat>,
                                     ids: seq<nat>,
                                     i: nat, throughPtr: bool, n: nat, t: nat)
    requires InputOk(g, referenced, st) && i <= |ids| && forall j :: 0 <= j < |ids| ==> ids[j] < |g|
    requires SearchUpTo(g, referenced, st, q, ids, i, throughPtr, n).Some?
    requires t < |g| && Kind(g[t]) == KIND_TYPEDEF && MarkedIfQueued(st, q, t)
    ensures var f := SearchUpTo(g, referenced, st, q, ids, i, throughPtr, n).value; MarkedIfQueued(f.st, f.q, t)
    decreases n, i + 1
  {
    if i > 0 {
      ListMarks(g, referenced, st, q, ids, i - 1, throughPtr, n, t);
      var before := SearchUpTo(g, referenced, st, q, ids, i - 1, throughPtr, n).value;
      if before.r >= 0 {
        SearchMarks(g, referenced, before.st, before.q, ids[i - 1], throughPtr, n, t);
      }
    }
  }

  predicate Twice(q: seq<nat>, id: nat) {
    exists i, j :: 0 <= i < j < |q| && q[i] == id && q[j] == id
  }

  /** A typedef that is queued when its search ends stands in the queue twice exactly if the search
      of its target has marked it already. */
  lemma {:induction false} TypedefTwiceIff(g: BtfGraph, referenced: seq<bool>, st: seq<OrderState>, q: seq<nat>,
                                           id: nat,
                                           throughPtr: bool, target: Found, f: Found)
    requires InputOk(g, referenced, st) && id < |g| && Kind(g[id]) == KIND_TYPEDEF
    requires st[id] == NotOrdered && id !in q
    requires Follows(g, referenced, st, q, g[id].refs[0], throughPtr, target)
    requires Follows(g, referenced, st, q, id, throughPtr, f) && f.r == 1
    ensures id < |target.st| && (Twice(f.q, id) <==> target.st[id] == Ordered)
  {
    var n: nat :| Search(g, referenced, st, q, g[id].refs[0], throughPtr, n) == Some(target);
    SearchMarks(g, referenced, st, q, g[id].refs[0], throughPtr, n, id);
    FollowsTypedef(g, referenced, st, q, id, throughPtr, target);
    FollowsUnique(g, referenced, st, q, id, throughPtr, f, Aliased(Some(target), id, throughPtr).value);
    TwiceAtEnd(target.q, id);
  }

  lemma {:induction false} TwiceAtEnd(q: seq<nat>, id: nat)
    ensures Twice(q + [id], id) <==> id in q
  {
    var q' := q + [id];
    assert q'[|q|] == id;
    if id in q {
      var i :| 0 <= i < |q| && q[i] == id;
      assert q'[i] == id;
    }
  }
}
