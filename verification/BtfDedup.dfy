/**
 The passes of `btf__dedup` over one deduplication state.
 */
module BtfDedup {
  import opened Common
  import opened Powers
  import opened TypeGraph
  import opened CanonicalMap
  import opened BtfTypes
  import opened HashMap
  import opened DedupSpec
  import opened DedupLimits
  import opened DedupMerge
  import opened DedupForwards
  import opened DedupErrors
  import opened DedupRefs

  /** The ids not yet recorded in a hypothetical map. */
  ghost function Unrecorded(hyp: seq<nat>): set<nat> {
    set k: nat | 0 <= k < |hyp| && hyp[k] > BTF_MAX_NR_TYPES
  }

  /** The hypothetical map records exactly the ids in the list, with ids in range. */
  ghost predicate HypotOk(hyp: seq<nat>, list: seq<nat>, n: nat) {
    && |hyp| == n
    && (forall k :: 0 <= k < n && hyp[k] <= BTF_MAX_NR_TYPES ==> hyp[k] < n && k in list)
    && (forall i :: 0 <= i < |list| ==> list[i] < n && hyp[list[i]] <= BTF_MAX_NR_TYPES)
  }

  lemma {:induction false} ListRecorded(g: BtfGraph, hyp: seq<nat>, list: seq<nat>)
    requires HypotOk(hyp, list, |g|)
    ensures Recorded(g, hyp, list)
  {
  }

  class BtfDedup {
    const dontResolveFwds: bool
    const memory: bool        // every allocation is granted; otherwise any of them may fail
    const dedupTable: Hashmap<u64, nat>
    var types: BtfGraph
    var canon: seq<nat>       // the source's `map`
    var hypotMap: seq<nat>
    var hypotList: seq<nat>
    ghost const origin: BtfGraph   // the graph the passes started from
    ghost const exact: bool        // forwards are not resolved, or there are none to resolve

    /** `btf_dedup_new`: `void`, variables and data sections are canonical from the start. */
    constructor (types: BtfGraph, dontResolveFwds: bool, collide: bool, memory: bool)
      requires GraphOk(types)
      ensures this.types == types && origin == types && this.dontResolveFwds == dontResolveFwds
      ensures this.memory == memory
      ensures exact == Exact(dontResolveFwds, types)
      ensures Valid() && fresh(dedupTable)
      ensures canon == InitialCanon(types)
      ensures Index() == iset{}
    {
      this.types, this.dontResolveFwds, this.memory, this.origin := types, dontResolveFwds, memory, types;
      exact := Exact(dontResolveFwds, types);
      var hashFn: u64 -> u64 := if collide then k => 0 else k => k;
      dedupTable := new Hashmap(hashFn, (a, b) => a == b);
      canon := InitialCanon(types);
      hypotMap, hypotList := seq(|types|, i => BTF_UNPROCESSED_ID), [];
      InitialForest(types);
    }

    /** Candidates in the table are types; all but enums and forwards are their own representatives. */
    ghost predicate TableOk()
      reads this, dedupTable
    {
      && dedupTable.Valid()
      && (forall a, b :: dedupTable.equalFn(a, b) <==> a == b)
      && TableIds(types, canon, Index()) && TableFits(0)
    }

    /** The table is no greater than the mapped types ask for, with room for `spare` more entries. */
    ghost predicate TableFits(spare: nat)
      reads this, dedupTable
    {
      spare <= |MappedIds(canon)| && BoundedBy(dedupTable.cap, dedupTable.sz, |MappedIds(canon)| - spare)
    }

    /** The table as a set of (hash, id) pairs. */
    ghost function Index(): iset<(u64, nat)>
      reads dedupTable
    {
      iset h: u64, id: nat | dedupTable.Holds(h, id) :: (h, id)
    }

    /** Unless forwards are resolved nothing has changed meaning, and the canonical map is sound. */
    ghost predicate Meaning()
      reads this
    {
      |origin| == |types| && exact == Exact(dontResolveFwds, origin) &&
      (exact ==> SameGraph(origin, types) && SoundMap(origin, canon))
    }

    /** Everything but the table. */
    ghost predicate StateOk()
      reads this
    {
      Shape() && Meaning() && HypotOk(hypotMap, hypotList, |types|)
    }

    ghost predicate Valid()
      reads this, dedupTable
    {
      StateOk() && TableOk()
    }

    /** `btf_dedup_table_add`. */
    method TableAdd(h: u64, typeId: nat) returns (err: int)
      requires TableOk() && TableFits(1) && 0 < typeId < |types| <= BTF_MAX_NR_TYPES + 1 && canon[typeId] == typeId
      modifies dedupTable
      ensures err == OK || (err == ENOMEM && !memory)
      ensures TableOk()
      ensures Index() == old(Index()) + (if err == OK then iset{(h, typeId)} else iset{})
    {
      ghost var index := Index();
      TableIdsAdd(types, canon, index, h, typeId);
      MappedAtMost(canon);
      ghost var n := |MappedIds(canon)| - 1;
      err := dedupTable.AppendValue(h, typeId, memory);
      assert BoundedBy(dedupTable.cap, dedupTable.sz, n + if err == OK then 1 else 0);
      ghost var added := index + (if err == OK then iset{(h, typeId)} else iset{});
      assert forall k, id :: (k, id) in Index() <==> (k, id) in added;
      assert Index() == added;
    }

    /** `for_each_dedup_cand`: the candidates recorded under a hash. */
    method Candidates(h: u64) returns (cands: seq<nat>)
      requires TableOk()
      ensures forall id :: id in cands <==> (h, id) in Index()
    {
      cands := dedupTable.Candidates(h);
    }

    ghost predicate Shape()
      reads this
    {
      && GraphOk(types) && |canon| == |types| && Forest(canon) && Links(types, canon)
    }

    /** There is nothing to resolve in the types as they are now, if there was nothing. */
    ghost predicate StillExact()
      reads this
    {
      (dontResolveFwds ==> exact) && (exact ==> Exact(dontResolveFwds, types))
    }

    // ----- graph equivalence

    method ResolveFwdId(typeId: nat) returns (r: nat)
      requires Shape() && typeId < |types|
      ensures r == FwdTarget(types, canon, typeId)
    {
      if !IsFwd(types[typeId]) { return typeId; }
      var root := ResolveTypeId(canon, typeId);
      if !IsFwd(types[root]) { return root; }
      return typeId;
    }

    method HypotMapAdd(fromId: nat, toId: nat) returns (err: int)
      requires Shape() && HypotOk(hypotMap, hypotList, |types|)
      requires fromId < |types| && toId < |types| && hypotMap[fromId] > BTF_MAX_NR_TYPES
      modifies this`hypotMap, this`hypotList
      ensures err == OK || (err == ENOMEM && !memory)
      ensures HypotOk(hypotMap, hypotList, |types|) && Extends(old(hypotMap), hypotMap)
      ensures Unrecorded(hypotMap) <= Unrecorded(old(hypotMap))
      ensures err == OK ==> hypotMap == old(hypotMap)[fromId := toId] && hypotList == old(hypotList) + [fromId]
      ensures err != OK ==> hypotMap == old(hypotMap) && hypotList == old(hypotList)
      ensures err == OK ==> Unrecorded(hypotMap) < Unrecorded(old(hypotMap))
    {
      if !memory {
        var granted: bool := *;
        if !granted { return ENOMEM; }
      }
      assert fromId in Unrecorded(hypotMap);
      hypotList := hypotList + [fromId];
      hypotMap := hypotMap[fromId := toId];
      assert fromId !in Unrecorded(hypotMap);
      assert hypotList[|hypotList| - 1] == fromId;
      forall k | 0 <= k < |types| && hypotMap[k] <= BTF_MAX_NR_TYPES
        ensures hypotMap[k] < |types| && k in hypotList
      {
        if k != fromId { assert k in old(hypotList); }
      }
      return OK;
    }

    method ClearHypotMap()
      requires Shape() && HypotOk(hypotMap, hypotList, |types|)
      modifies this`hypotMap, this`hypotList
      ensures HypotOk(hypotMap, hypotList, |types|)
      ensures hypotList == [] && forall k :: 0 <= k < |hypotMap| ==> hypotMap[k] > BTF_MAX_NR_TYPES
    {
      var i := 0;
      while i < |hypotList|
        invariant i <= |hypotList| && |hypotMap| == |types|
        invariant forall j :: 0 <= j < |hypotList| ==> hypotList[j] < |types|
        invariant forall k :: 0 <= k < |hypotMap| && hypotMap[k] <= BTF_MAX_NR_TYPES ==> k in hypotList[i..]
      {
        hypotMap := hypotMap[hypotList[i] := BTF_UNPROCESSED_ID];
        i := i + 1;
      }
      hypotList := [];
    }

    /** `btf_dedup_is_equiv`: 1 when the graphs are equivalent, 0 when not, negative on error.
        A positive answer leaves a hypothetical map in which the pair is settled and all recorded
        pairs but the `open` ones, whose expansion is under way, are closed.  The answer 0 means
        that no closed map that extends the given one settles the pair. */
    method IsEquiv(candId: nat, canonId: nat, ghost open: set<nat>) returns (r: int)
      requires Shape() && StillExact() && candId < |types| && canonId < |types|
      requires ProperRefs(types) ==> Comparable(types, candId) && Comparable(types, canonId)
      requires HypotOk(hypotMap, hypotList, |types|)
      requires ClosedExcept(types, canon, hypotMap, open, exact)
      modifies this`hypotMap, this`hypotList
      ensures r <= 1 && CheckBlamed(types, memory, r)
      ensures HypotOk(hypotMap, hypotList, |types|) && Extends(old(hypotMap), hypotMap)
      ensures old(hypotList) <= hypotList
      ensures Unrecorded(hypotMap) <= Unrecorded(old(hypotMap))
      ensures r > 0 ==> ClosedExcept(types, canon, hypotMap, open, exact)
      ensures r > 0 ==> Settled(types, canon, hypotMap, candId, canonId)
      ensures r > 0 && !Joined(canon, candId, canonId) &&
              old(hypotMap[FwdTarget(types, canon, canonId)]) > BTF_MAX_NR_TYPES ==>
                |old(hypotList)| < |hypotList| && hypotList[|old(hypotList)|] == FwdTarget(types, canon, canonId)
      ensures Complete(types, canon, old(hypotMap), hypotMap, candId, canonId, exact, r)
      decreases Unrecorded(hypotMap), 0
    {
      var candRoot := ResolveTypeId(canon, candId);
      var canonRoot := ResolveTypeId(canon, canonId);
      if candRoot == canonRoot { return 1; }
      var k := ResolveFwdId(canonId);
      var hypotId := hypotMap[k];
      if hypotId <= BTF_MAX_NR_TYPES {
        CompleteByRecord(types, canon, hypotMap, candId, canonId, exact);
        return if hypotId == candId then 1 else 0;
      }
      var err := HypotMapAdd(k, candId);
      if err != OK { return ENOMEM; }
      AddKeepsClosed(types, canon, old(hypotMap), k, candId, open, exact);
      if ProperRefs(types) { TargetComparable(types, canon, canonId); }
      ghost var list := hypotList;
      r := ExpandPair(candId, k, open);
      assert hypotList[|list| - 1] == list[|list| - 1];
      CompleteByPair(types, canon, old(hypotMap), hypotMap, candId, canonId, exact, r);
    }

    /** The rest of `btf_dedup_is_equiv` once the pair is recorded: compare the descriptors and then
        what they refer to. */
    method ExpandPair(candId: nat, k: nat, ghost open: set<nat>) returns (r: int)
      requires Shape() && StillExact() && HypotOk(hypotMap, hypotList, |types|)
      requires candId < |types| && k < |types| && hypotMap[k] == candId && (candId != 0 || k != 0)
      requires ProperRefs(types) ==> Comparable(types, candId) && Comparable(types, k)
      requires ClosedExcept(types, canon, hypotMap, open + {k}, exact)
      modifies this`hypotMap, this`hypotList
      ensures r <= 1 && CheckBlamed(types, memory, r)
      ensures HypotOk(hypotMap, hypotList, |types|) && Extends(old(hypotMap), hypotMap)
      ensures old(hypotList) <= hypotList
      ensures Unrecorded(hypotMap) <= Unrecorded(old(hypotMap))
      ensures r > 0 ==> ClosedExcept(types, canon, hypotMap, open, exact)
      ensures CompleteFrom(types, canon, old(hypotMap), hypotMap, exact, r)
      decreases Unrecorded(hypotMap), 3
    {
      var ok := CompareLocally(types[candId], types[k], dontResolveFwds);
      if exact && !dontResolveFwds { NothingMatches(types, candId, k); }
      if ok <= 0 {
        if ok == 0 { CompleteByMismatch(types, canon, hypotMap, hypotMap, candId, k, exact); }
        return ok;
      }
      r := ExpandChildren(candId, k, open);
    }

    /** Compares what two compatible types refer to. */
    method ExpandChildren(candId: nat, k: nat, ghost open: set<nat>) returns (r: int)
      requires Shape() && StillExact() && HypotOk(hypotMap, hypotList, |types|)
      requires candId < |types| && k < |types| && hypotMap[k] == candId
      requires ProperRefs(types) ==> Comparable(types, candId) && Comparable(types, k)
      requires ClosedExcept(types, canon, hypotMap, open + {k}, exact)
      requires LocallyCompatible(types[candId], types[k], exact)
      requires Kind(types[candId]) == Kind(types[k]) && !IsEnum(types[candId]) ==> types[candId].sig == types[k].sig
      modifies this`hypotMap, this`hypotList
      ensures r <= 1 && CheckBlamed(types, memory, r)
      ensures HypotOk(hypotMap, hypotList, |types|) && Extends(old(hypotMap), hypotMap)
      ensures old(hypotList) <= hypotList
      ensures Unrecorded(hypotMap) <= Unrecorded(old(hypotMap))
      ensures r > 0 ==> ClosedExcept(types, canon, hypotMap, open, exact)
      ensures CompleteFrom(types, canon, old(hypotMap), hypotMap, exact, r)
      decreases Unrecorded(hypotMap), 2
    {
      var cs, ks := [], [];
      if Kind(types[candId]) == Kind(types[k]) {
        cs, ks := Visited(types[candId]), Visited(types[k]);
        VisitedOk(types, candId, k);
      }
      if ProperRefs(types) { VisitedComparable(types, candId, k); }
      r := EquivAll(cs, ks, open + {k});
      CompleteByChildren(types, canon, old(hypotMap), hypotMap, candId, k, cs, ks, exact, r);
      if r > 0 { PairNowClosed(types, canon, hypotMap, k, open, exact); }
    }

    /** Compares the referenced types pairwise, stopping at the first pair that is not equivalent. */
    method EquivAll(cs: seq<nat>, ks: seq<nat>, ghost open: set<nat>) returns (r: int)
      requires Shape() && StillExact() && |cs| == |ks|
      requires forall j :: 0 <= j < |cs| ==> cs[j] < |types| && ks[j] < |types|
      requires ProperRefs(types) ==> forall j :: 0 <= j < |cs| ==> Comparable(types, cs[j]) && Comparable(types, ks[j])
      requires HypotOk(hypotMap, hypotList, |types|)
      requires ClosedExcept(types, canon, hypotMap, open, exact)
      modifies this`hypotMap, this`hypotList
      ensures r <= 1 && CheckBlamed(types, memory, r)
      ensures HypotOk(hypotMap, hypotList, |types|) && Extends(old(hypotMap), hypotMap)
      ensures old(hypotList) <= hypotList
      ensures Unrecorded(hypotMap) <= Unrecorded(old(hypotMap))
      ensures r > 0 ==> ClosedExcept(types, canon, hypotMap, open, exact)
      ensures r > 0 ==> AllSettled(types, canon, hypotMap, cs, ks)
      ensures CompleteAll(types, canon, old(hypotMap), hypotMap, cs, ks, exact, r)
      decreases Unrecorded(hypotMap), 1
    {
      var i := 0;
      while i < |cs|
        invariant i <= |cs| && HypotOk(hypotMap, hypotList, |types|) && Extends(old(hypotMap), hypotMap)
        invariant Unrecorded(hypotMap) <= Unrecorded(old(hypotMap)) && old(hypotList) <= hypotList
        invariant ClosedExcept(types, canon, hypotMap, open, exact)
        invariant SettledUpTo(types, canon, hypotMap, cs, ks, i)
        invariant CompleteAll(types, canon, old(hypotMap), hypotMap, cs, ks, exact, 1)
      {
        ghost var hyp := hypotMap;
        r := IsEquiv(cs[i], ks[i], open);
        CompleteNext(types, canon, old(hypotMap), hyp, hypotMap, cs, ks, i, exact, r);
        if r <= 0 { return; }
        SettledNext(types, canon, hyp, hypotMap, cs, ks, i);
        i := i + 1;
      }
      return 1;
    }

    // ----- primitive pass

    /** The candidate loop for INT and FWD: the first candidate with an equal descriptor. */
    method FindEqualPrim(typeId: nat, cands: seq<nat>) returns (newId: nat)
      requires Layouts(types) && typeId < |types| && (Kind(types[typeId]) == KIND_INT || IsFwd(types[typeId]))
      requires forall j :: 0 <= j < |cands| ==> cands[j] < |types|
      ensures newId == typeId || (newId in cands && types[newId] == types[typeId])
      ensures newId == typeId && typeId !in cands ==> forall j :: 0 <= j < |cands| ==> types[cands[j]] != types[typeId]
    {
      var t := types[typeId];
      for i := 0 to |cands|
        invariant forall j :: 0 <= j < i ==> types[cands[j]] != t
      {
        var cand := types[cands[i]];
        if Kind(t) == KIND_INT {
          EqualIntMeans(t, cand);
          if EqualInt(t, cand) { return cands[i]; }
        } else {
          EqualFwdMeans(t, cand);
          if EqualCommon(t, cand) { return cands[i]; }
        }
      }
      return typeId;
    }

    /** The candidate loop for ENUM, which may redirect canonical forward enums to `typeId`. */
    method ResolveEnum(typeId: nat, cands: seq<nat>) returns (newId: nat)
      requires Shape() && StillExact() && typeId < |types| && IsEnum(types[typeId]) && !IsMapped(canon, typeId)
      requires forall j :: 0 <= j < |cands| ==> cands[j] < typeId
      modifies this`canon
      ensures Shape() && canon[typeId] == old(canon[typeId])
      ensures (newId == typeId || newId in cands) && Kind(types[newId]) == Kind(types[typeId])
      ensures newId != typeId ==> types[newId] == types[typeId] || (!exact && IsEnumFwd(types[typeId]))
      ensures Represents(types, types[typeId].sig, types[newId].sig)
      ensures newId == typeId ==> forall j :: 0 <= j < |cands| ==> types[cands[j]] != types[typeId]
      ensures exact || IsEnumFwd(types[typeId]) ==> canon == old(canon)
      ensures newId == typeId && !dontResolveFwds ==>
                forall j :: 0 <= j < |cands| ==> EnumTaken(types, canon, cands[j], typeId)
      ensures forall i :: 0 <= i < |canon| ==>
                canon[i] == old(canon[i]) || (i < typeId && IsEnumFwd(types[i]) && canon[i] == typeId)
    {
      var t := types[typeId];
      for i := 0 to |cands|
        invariant Shape() && canon[typeId] == old(canon[typeId])
        invariant exact || IsEnumFwd(t) ==> canon == old(canon)
        invariant !dontResolveFwds ==> forall j :: 0 <= j < i ==> EnumTaken(types, canon, cands[j], typeId)
        invariant forall j :: 0 <= j < i ==> types[cands[j]] != t
        invariant forall k :: 0 <= k < |canon| ==>
                    canon[k] == old(canon[k]) || (k < typeId && IsEnumFwd(types[k]) && canon[k] == typeId)
      {
        var candId, cand := cands[i], types[cands[i]];
        EqualEnumMeans(t, cand);
        if EqualEnum(t, cand) { return candId; }
        if StandsFor(t.sig, cand.sig) { StandsCompat(t, cand); }
        if StandsFor(cand.sig, t.sig) { StandsOther(cand, t); }
        if !dontResolveFwds && CompatEnum(t, cand) {
          if exact { NothingMatches(types, typeId, candId); }
          CompatEnumStands(t, cand);
          if IsEnumFwd(t) { return candId; }
          LinkToRoot(canon, candId, typeId);
          LinksSet(types, canon, candId, typeId);
          canon := canon[candId := typeId];
        }
      }
      return typeId;
    }

    /** The candidate loops of the primitive pass, by kind. */
    method ChoosePrim(typeId: nat, cands: seq<nat>) returns (newId: nat)
      requires Shape() && StillExact() && typeId < |types| && IsPrim(types[typeId]) && !IsMapped(canon, typeId)
      requires forall j :: 0 <= j < |cands| ==> cands[j] < typeId
      modifies this`canon
      ensures Shape() && PrimChoice(types, old(canon), canon, cands, typeId, newId, exact, dontResolveFwds)
    {
      if IsEnum(types[typeId]) {
        newId := ResolveEnum(typeId, cands);
      } else {
        newId := FindEqualPrim(typeId, cands);
      }
    }

    /** Chooses and records the representative of one INT, ENUM or FWD among the candidates. */
    method MapPrim(typeId: nat, cands: seq<nat>)
      requires StateOk() && 0 < typeId < |types| && IsPrim(types[typeId])
      requires PrimState(types, canon, typeId, dontResolveFwds)
      requires PrimCands(types, canon, cands, typeId)
      modifies this`canon
      ensures StateOk() && PrimState(types, canon, typeId + 1, dontResolveFwds)
      ensures PrimGrows(types, old(canon), canon, typeId)
    {
      if exact { ExactStays(origin, types, dontResolveFwds); }
      assert canon[typeId] == InitialCanon(types)[typeId];
      var newId := ChoosePrim(typeId, cands);
      ChoiceKeeps(origin, types, old(canon), canon, cands, typeId, newId, exact, dontResolveFwds);
      canon := canon[typeId := newId];
    }

    /** `btf_dedup_prim_type`. */
    method PrimType(typeId: nat) returns (err: int)
      requires Valid() && 0 < typeId < |types|
      requires PrimState(types, canon, typeId, dontResolveFwds) && PrimTable(types, canon, Index(), typeId)
      modifies this`canon, dedupTable
      ensures Valid()
      ensures err == OK || (err == ENOMEM && !memory) || (err == EINVAL && Kind(types[typeId]) == KIND_UNKN)
      ensures err == OK ==>
                PrimState(types, canon, typeId + 1, dontResolveFwds) && PrimTable(types, canon, Index(), typeId + 1)
      ensures PrimGrows(types, old(canon), canon, typeId)
    {
      if !IsPrim(types[typeId]) {
        PrimSkip(types, canon, Index(), typeId);
        if !dontResolveFwds { EnumsSkip(types, canon, typeId); }
        return if Kind(types[typeId]) == KIND_UNKN then EINVAL else OK;
      }
      err := RecordPrim(typeId);
    }

    /** Finds or makes the representative of a primitive. */
    method RecordPrim(typeId: nat) returns (err: int)
      requires Valid() && 0 < typeId < |types| && IsPrim(types[typeId])
      requires PrimState(types, canon, typeId, dontResolveFwds) && PrimTable(types, canon, Index(), typeId)
      modifies this`canon, dedupTable
      ensures Valid()
      ensures err == OK || (err == ENOMEM && !memory)
      ensures err == OK ==>
                PrimState(types, canon, typeId + 1, dontResolveFwds) && PrimTable(types, canon, Index(), typeId + 1)
      ensures PrimGrows(types, old(canon), canon, typeId)
    {
      var h := PrimHash(types[typeId]);
      var cands := Candidates(h);
      ghost var index := Index();
      PrimCandsOk(types, canon, index, h, cands, typeId);
      assert canon[typeId] == InitialCanon(types)[typeId];
      MapPrim(typeId, cands);
      PrimMapped(types, old(canon), canon, typeId);
      PrimTableStep(types, old(canon), canon, index, typeId);
      err := OK;
      if canon[typeId] == typeId { err := TableAdd(h, typeId); }
    }

    /** `btf_dedup_prim_types`. */
    method PrimTypes() returns (err: int)
      requires Valid() && canon == InitialCanon(types) && Index() == iset{}
      modifies this`canon, dedupTable
      ensures Valid()
      ensures err == OK || (err == ENOMEM && !memory) || (err == EINVAL && !NoUnknown(types))
      ensures err == OK ==> PrimState(types, canon, |types|, dontResolveFwds)
    {
      var i := 1;
      PrimStart(types);
      while i < |types|
        invariant 1 <= i <= |types| && Valid()
        invariant PrimState(types, canon, i, dontResolveFwds) && PrimTable(types, canon, Index(), i)
      {
        err := PrimType(i);
        if err != OK { return; }
        i := i + 1;
      }
      return OK;
    }

    // ----- struct and union pass

    /** `btf_dedup_merge_hypot_map`. */
    method MergeHypotMap()
      requires |canon| == |types| && Forest(canon) && Recorded(types, hypotMap, hypotList)
      modifies this`canon
      ensures MergesTo(types, old(canon), hypotMap, hypotList, canon)
    {
      ghost var maps := [canon];
      for i := 0 to |hypotList|
        invariant |maps| == i + 1 && maps[0] == old(canon) && maps[i] == canon
        invariant |canon| == |types| && Forest(canon) && MergeSteps(types, hypotMap, hypotList, maps)
      {
        MergePair(hypotList[i], hypotMap[hypotList[i]]);
        MergeStepsNext(types, hypotMap, hypotList, maps, canon);
        maps := maps + [canon];
      }
    }

    /** Merges one recorded pair. */
    method MergePair(candTypeId: nat, targTypeId: nat)
      requires |canon| == |types| && Forest(canon) && candTypeId < |types| && targTypeId < |types|
      modifies this`canon
      ensures old(|canon| == |types| && Forest(canon))
      ensures canon == MergedPair(types, old(canon), candTypeId, targTypeId)
    {
      var tId := ResolveTypeId(canon, targTypeId);
      var cId := ResolveTypeId(canon, candTypeId);
      var tKind, cKind := Kind(types[tId]), Kind(types[cId]);
      if tKind != KIND_FWD && cKind == KIND_FWD {
        canon := canon[cId := tId];
      } else if tKind == KIND_FWD && cKind != KIND_FWD {
        canon := canon[tId := cId];
      }
      if (tKind == KIND_STRUCT || tKind == KIND_UNION) && cKind != KIND_FWD &&
         canon[cId] <= BTF_MAX_NR_TYPES && canon[tId] > BTF_MAX_NR_TYPES {
        canon := canon[tId := cId];
      }
    }

    /** The struct pass links structs and unions to representatives only, and those that have no
        forward share it with a partner. */
    ghost predicate StructsOk()
      requires Shape()
      reads this
    {
      StructLinks(types, canon) && Partnered(types, canon)
    }

    /** Checks one candidate for `typeId` and, on equivalence, merges what the check learnt: the pairs
        recorded are closed and settle the two, which are joined, and of no recorded pair one side is
        left a forward where the other was a struct or union. */
    method TryCandidate(typeId: nat, candId: nat) returns (eq: int)
      requires StateOk() && StructsOk() && typeId < |types| && candId < |types|
      requires IsComposite(types[typeId]) && !IsMapped(canon, typeId)
      requires IsComposite(types[candId]) && canon[candId] == candId
      modifies this`canon, this`hypotMap, this`hypotList
      ensures StateOk() && CanonGrows(types, old(canon), canon) && StructAdvance(types, old(canon), canon)
      ensures CheckBlamed(types, memory, eq)
      ensures eq > 0 ==>
                && ClosedExcept(types, old(canon), hypotMap, {}, exact)
                && Settled(types, old(canon), hypotMap, typeId, candId)
                && MergeOutcome(types, old(canon), hypotMap, canon, typeId, candId)
      ensures NoNewSelf(old(canon), canon, 0)
      ensures eq <= 0 ==> canon == old(canon)
      ensures eq > 0 && exact ==> Same(types, typeId, types, candId)
      ensures eq >= 0 ==> (eq == 0 <==> Unsettleable(types, old(canon), typeId, candId, exact))
    {
      ClearHypotMap();
      StructAdvanceSelf(types, canon);
      ResolveStep(canon, typeId);
      ResolveStep(canon, candId);
      ghost var cleared := hypotMap;
      if exact { ExactStays(origin, types, dontResolveFwds); }
      eq := IsEquiv(typeId, candId, {});
      if eq == 0 { RefusalMeans(types, canon, cleared, hypotMap, typeId, candId, exact); }
      if eq <= 0 { return; }
      MergeChecked(typeId, candId);
    }

    /** Merges what a check learnt that found `typeId` equivalent to `candId`. */
    method MergeChecked(ghost typeId: nat, ghost candId: nat)
      requires StateOk() && StructsOk() && typeId < |types| && candId < |types|
      requires IsComposite(types[typeId]) && !IsMapped(canon, typeId)
      requires IsComposite(types[candId]) && canon[candId] == candId
      requires ClosedExcept(types, canon, hypotMap, {}, exact) && Settled(types, canon, hypotMap, typeId, candId)
      requires hypotList != [] && hypotList[0] == candId && hypotMap[candId] == typeId
      modifies this`canon
      ensures StateOk() && old(|canon| == |types| && Forest(canon)) && CanonGrows(types, old(canon), canon)
      ensures NoNewSelf(old(canon), canon, 0)
      ensures MergeOutcome(types, old(canon), hypotMap, canon, typeId, candId)
      ensures exact ==> Same(types, typeId, types, candId)
    {
      if exact { SoundTransfer(origin, types, canon); }
      ListRecorded(types, hypotMap, hypotList);
      CheckedKeeps(types, canon, hypotMap, hypotList, typeId, candId, exact);
      MergeHypotMap();
      MergeResolves(types, old(canon), hypotMap, hypotList, canon, typeId, candId, exact);
      if exact { SoundBack(origin, types, canon); }
    }

    /** The candidate loop of `btf_dedup_struct_type`: a candidate, `typeId` itself if none fits, or
        a negative error. */
    method FindStruct(typeId: nat, cands: seq<nat>) returns (r: int)
      requires StateOk() && StructsOk() && 0 < typeId < |types|
      requires IsComposite(types[typeId]) && !IsMapped(canon, typeId)
      requires forall j :: 0 <= j < |cands| ==> cands[j] < |types|
      requires forall j :: 0 <= j < |cands| && IsComposite(types[cands[j]]) ==> canon[cands[j]] == cands[j]
      modifies this`canon, this`hypotMap, this`hypotList
      ensures StateOk() && CanonGrows(types, old(canon), canon) && NoNewSelf(old(canon), canon, 0)
      ensures StructAdvance(types, old(canon), canon) && CheckBlamed(types, memory, r)
      ensures r < 0 || (r == typeId && canon == old(canon) && NoneFits(types, canon, typeId, cands, |cands|, exact))
              || (r in cands && types[r].sig == types[typeId].sig
                  && !Unsettleable(types, old(canon), typeId, r, exact)
                  && old(canon[r]) == r && IsPartner(types, canon, typeId, r)
                  && (exact ==> Same(types, typeId, types, r)))
    {
      var t, i := types[typeId], 0;
      StructAdvanceSelf(types, canon);
      while i < |cands|
        invariant i <= |cands| && StateOk() && canon == old(canon)
        invariant NoneFits(types, canon, typeId, cands, i, exact)
      {
        var candId := cands[i];
        ShallowEqualStructMeans(t, types[candId]);
        if ShallowEqualStruct(t, types[candId]) {
          var eq := TryCandidate(typeId, candId);
          if eq < 0 { return eq; }
          if eq > 0 { return candId; }
        }
        NoneFitsNext(types, canon, typeId, cands, i, exact);
        i := i + 1;
      }
      return typeId;
    }

    /** Chooses and records the representative of one struct or union. */
    method MapStruct(typeId: nat, cands: seq<nat>) returns (err: int)
      requires StateOk() && StructsOk() && 0 < typeId < |types|
      requires IsComposite(types[typeId]) && !IsMapped(canon, typeId)
      requires forall j :: 0 <= j < |cands| ==> cands[j] < |types|
      requires forall j :: 0 <= j < |cands| && IsComposite(types[cands[j]]) ==> canon[cands[j]] == cands[j]
      modifies this`canon, this`hypotMap, this`hypotList
      ensures StateOk() && CanonGrows(types, old(canon), canon) && StructAdvance(types, old(canon), canon)
      ensures err <= 0 && CheckBlamed(types, memory, err)
      ensures err == OK ==> IsMapped(canon, typeId)
      ensures NoNewSelf(old(canon), canon, typeId)
      ensures err == OK ==>
                || (canon[typeId] in cands && !Unsettleable(types, old(canon), typeId, canon[typeId], exact))
                || (canon[typeId] == typeId && NoneFits(types, old(canon), typeId, cands, |cands|, exact))
    {
      var newId := FindStruct(typeId, cands);
      if newId < 0 { return newId; }
      StructMapped(origin, types, old(canon), canon, typeId, newId, exact);
      canon := canon[typeId := newId];
      return OK;
    }

    /** `btf_dedup_struct_type`. */
    method StructType(typeId: nat) returns (err: int)
      requires Valid() && StructsOk() && 0 < typeId < |types| && StructIndexed(types, canon, Index())
      modifies this`canon, this`hypotMap, this`hypotList, dedupTable
      ensures Valid() && CanonGrows(types, old(canon), canon) && NoNewSelf(old(canon), canon, typeId)
      ensures StructAdvance(types, old(canon), canon)
      ensures err <= 0 && CheckBlamed(types, memory, err)
      ensures err == OK ==> StructIndexed(types, canon, Index())
      ensures err == OK && IsComposite(types[typeId]) ==> IsMapped(canon, typeId)
      ensures err == OK && IsComposite(types[typeId]) && old(!IsMapped(canon, typeId)) ==>
                && StructPlaced(types, old(canon), old(Index()), typeId, canon[typeId], exact)
                && (exact && PlainForwards(types) ==>
                      PlacedByMeaning(types, old(canon), old(Index()), typeId, canon[typeId]))
    {
      CanonGrowsSelf(types, canon);
      StructAdvanceSelf(types, canon);
      if canon[typeId] <= BTF_MAX_NR_TYPES { return OK; }
      if Kind(types[typeId]) != KIND_STRUCT && Kind(types[typeId]) != KIND_UNION { return OK; }
      err := PlaceStruct(typeId);
      if err == OK && exact && PlainForwards(types) {
        PlacedMeans(types, old(canon), old(Index()), typeId, canon[typeId]);
      }
    }

    /** Finds or makes the representative of a struct or union that has none yet. */
    method PlaceStruct(typeId: nat) returns (err: int)
      requires Valid() && StructsOk() && 0 < typeId < |types| && IsComposite(types[typeId]) && !IsMapped(canon, typeId)
      requires StructIndexed(types, canon, Index())
      modifies this`canon, this`hypotMap, this`hypotList, dedupTable
      ensures Valid() && CanonGrows(types, old(canon), canon) && NoNewSelf(old(canon), canon, typeId)
      ensures StructAdvance(types, old(canon), canon)
      ensures old(|canon| == |types| && Forest(canon) && (exact ==> SoundMap(types, canon)))
      ensures err <= 0 && CheckBlamed(types, memory, err)
      ensures err == OK ==> IsMapped(canon, typeId) && StructIndexed(types, canon, Index())
      ensures err == OK ==> StructPlaced(types, old(canon), old(Index()), typeId, canon[typeId], exact)
    {
      if exact { SoundTransfer(origin, types, canon); }
      var h := HashStruct(types[typeId]);
      var cands := Candidates(h);
      err := MapFiled(typeId, h, cands);
      if err != OK { return; }
      err := FileStruct(typeId, h);
    }

    /** Records the representative of a struct or union; the table is left to be brought up to date. */
    method MapFiled(typeId: nat, h: u64, cands: seq<nat>) returns (err: int)
      requires Valid() && StructsOk() && 0 < typeId < |types|
      requires IsComposite(types[typeId]) && !IsMapped(canon, typeId)
      requires StructIndexed(types, canon, Index()) && h == HashStruct(types[typeId])
      requires forall id :: id in cands <==> (h, id) in Index()
      modifies this`canon, this`hypotMap, this`hypotList
      ensures Valid() && CanonGrows(types, old(canon), canon) && NoNewSelf(old(canon), canon, typeId)
      ensures StructAdvance(types, old(canon), canon)
      ensures err <= 0 && CheckBlamed(types, memory, err)
      ensures err == OK ==> IsMapped(canon, typeId) && TableFits(1)
      ensures err == OK ==> StructPlaced(types, old(canon), Index(), typeId, canon[typeId], exact)
      ensures err == OK && canon[typeId] != typeId ==> StructIndexed(types, canon, Index())
      ensures err == OK ==> StructIndexed(types, canon, Index() + iset{(h, typeId)})
    {
      assert forall j :: 0 <= j < |cands| ==> (h, cands[j]) in Index();
      err := MapStruct(typeId, cands);
      TableKept(types, old(canon), canon, Index(), typeId);
      if err == OK { StructFiled(types, old(canon), canon, Index(), typeId, cands, exact); }
    }

    /** Indexes a struct or union that has become canonical. */
    method FileStruct(typeId: nat, h: u64) returns (err: int)
      requires Valid() && 0 < typeId < |types| && IsComposite(types[typeId]) && TableFits(1)
      requires h == HashStruct(types[typeId])
      requires canon[typeId] != typeId ==> StructIndexed(types, canon, Index())
      requires StructIndexed(types, canon, Index() + iset{(h, typeId)})
      modifies dedupTable
      ensures Valid() && (err == OK || (err == ENOMEM && !memory))
      ensures err == OK ==> StructIndexed(types, canon, Index())
    {
      err := OK;
      if canon[typeId] == typeId { err := TableAdd(h, typeId); }
    }

    /** `btf_dedup_struct_types`: afterwards every struct and union is mapped, canonical ones of one
        signature have been refused, and structs of equal meaning with different representatives are in
        conflict. */
    method StructTypes() returns (err: int)
      requires Valid() && StructsOk() && NoSelfFrom(types, canon, 1)
      modifies this`canon, this`hypotMap, this`hypotList, dedupTable
      ensures Valid() && CanonGrows(types, old(canon), canon) && StructAdvance(types, old(canon), canon)
      ensures err <= 0 && CheckBlamed(types, memory, err)
      ensures err == OK ==> StructsMapped(types, canon, |types|) && StructsRefused(types, canon, |types|, exact)
      ensures err == OK && exact && PlainForwards(types) ==> StructsApart(types, canon, |types|)
    {
      var i := 1;
      CanonGrowsSelf(types, canon);
      StructAdvanceSelf(types, canon);
      while i < |types|
        invariant 1 <= i <= |types| && Valid() && CanonGrows(types, old(canon), canon)
        invariant StructAdvance(types, old(canon), canon) && StructsRefused(types, canon, i, exact)
        invariant StructsMapped(types, canon, i) && StructIndexed(types, canon, Index()) && NoSelfFrom(types, canon, i)
        invariant exact && PlainForwards(types) ==> StructsApart(types, canon, i)
      {
        ghost var m, index := canon, Index();
        err := StructType(i);
        CanonGrowsTrans(types, old(canon), m, canon);
        StructAdvanceTrans(types, old(canon), m, canon);
        if err != OK { return; }
        StructsStayMapped(types, m, canon, i);
        NoSelfNext(types, m, canon, i);
        StructsRefusedStep(types, m, canon, index, i, exact);
        if exact && PlainForwards(types) { StructsApartStep(types, m, canon, index, i); }
        i := i + 1;
      }
      return OK;
    }

    // ----- reference pass

    /** The candidate loop of `btf_dedup_ref_type`. */
    method FindEqualRef(typeId: nat, cands: seq<nat>) returns (newId: nat)
      requires Layouts(types) && typeId < |types| && IsRefKind(Kind(types[typeId]))
      requires forall j :: 0 <= j < |cands| ==> cands[j] < |types|
      ensures newId == typeId || (newId in cands && types[newId] == types[typeId])
      ensures newId == typeId && typeId !in cands ==> forall j :: 0 <= j < |cands| ==> types[cands[j]] != types[typeId]
    {
      var t := types[typeId];
      for i := 0 to |cands|
        invariant forall j :: 0 <= j < i ==> types[cands[j]] != t
      {
        var cand := types[cands[i]];
        if Kind(t) == KIND_ARRAY {
          EqualArrayMeans(t, cand);
          if EqualArray(t, cand) { return cands[i]; }
        } else if Kind(t) == KIND_FUNC_PROTO {
          EqualFnprotoMeans(t, cand);
          if EqualFnproto(t, cand) { return cands[i]; }
        } else {
          EqualFwdMeans(t, cand);
          if EqualCommon(t, cand) { return cands[i]; }
        }
      }
      return typeId;
    }

    /** Records the representative of a reference type whose references are resolved. */
    method MapRef(typeId: nat, cands: seq<nat>) returns (newId: nat)
      requires StateOk() && 0 < typeId < |types| && IsRefKind(Kind(types[typeId])) && !IsMapped(canon, typeId)
      requires forall j :: 0 <= j < |cands| ==> cands[j] < |types|
      requires forall j :: 0 <= j < |cands| && IsRefKind(Kind(types[cands[j]])) ==> canon[cands[j]] == cands[j]
      modifies this`canon
      ensures newId < |types| && canon == old(canon)[typeId := newId] && canon[newId] == newId
      ensures StateOk()
      ensures types[newId] == types[typeId] && (exact ==> Same(types, typeId, types, newId))
      ensures newId == typeId ==> forall j :: 0 <= j < |cands| ==> types[cands[j]] != types[typeId]
    {
      newId := FindEqualRef(typeId, cands);
      if newId != typeId {
        EqualNodesSame(types, typeId, newId);
        LinkKeeps(origin, types, canon, typeId, newId, exact);
      } else {
        RootKeeps(origin, canon, typeId, typeId, exact);
      }
      LinksSet(types, canon, typeId, newId);
      canon := canon[typeId := newId];
    }

    /** The state of the reference pass: the table finds every canonical reference type, and what is
        left to map are reference types as they came. */
    ghost predicate RefOk()
      reads this, dedupTable
    {
      && |types| == |canon| && RefTable(types, canon, Index()) && RefState(origin, types, canon)
      && RefsRooted(origin, types, canon)
    }

    /** Replaces reference `j` of a type by its representative. */
    method SetRef(typeId: nat, j: nat, v: nat)
      requires Valid() && typeId < |types| && j < |types[typeId].refs| && v < |types|
      requires RefOk() && canon[typeId] == BTF_IN_PROGRESS_ID
      requires exact ==> Same(types, types[typeId].refs[j], types, v)
      modifies this`types
      ensures types == old(types)[typeId := WithRef(old(types)[typeId], j, v)]
      ensures Valid()
      ensures RefOk()
    {
      RewriteKeeps(origin, types, typeId, j, v, exact);
      LinksRewritten(types, types[typeId := WithRef(types[typeId], j, v)], canon);
      TableIdsFrame(types, canon, types[typeId := WithRef(types[typeId], j, v)], canon, Index());
      RefTableFrame(types, canon, types[typeId := WithRef(types[typeId], j, v)], canon, Index());
      RefStateFrame(origin, types, canon, types[typeId := WithRef(types[typeId], j, v)], canon);
      RefsRootedFrame(origin, types, canon, types[typeId := WithRef(types[typeId], j, v)], canon);
      types := types[typeId := WithRef(types[typeId], j, v)];
    }

    /** Marks a type whose references are being resolved. */
    method MarkInProgress(typeId: nat)
      requires Valid() && typeId < |types| && typeId in Pending(canon) && RefOk()
      modifies this`canon
      ensures RefOk()
      ensures Valid() && canon == old(canon)[typeId := BTF_IN_PROGRESS_ID]
      ensures Pending(canon) < Pending(old(canon))
    {
      RootKeeps(origin, canon, typeId, BTF_IN_PROGRESS_ID, exact);
      LinksSet(types, canon, typeId, BTF_IN_PROGRESS_ID);
      MarkKeepsTable(origin, types, canon, Index(), typeId);
      RefsRootedFrame(origin, types, canon, types, canon[typeId := BTF_IN_PROGRESS_ID]);
      canon := canon[typeId := BTF_IN_PROGRESS_ID];
      assert typeId !in Pending(canon);
    }

    /** `btf_dedup_ref_type`: the representative of `typeId`, or a negative error. `rank` is any
        ranking of the types under way above this one. */
    method RefType(typeId: nat, ghost rank: seq<nat>) returns (r: int)
      requires Valid() && typeId < |types| && IsMapped(canon, 0) && RefOk()
      requires UnderWayAbove(origin, canon, rank, typeId)
      modifies this`types, this`canon, dedupTable
      ensures Valid() && RefFrame(old(types), old(canon), types, canon)
      ensures r >= 0 ==> RefOk() && NoMoreUnderWay(old(canon), canon)
      ensures r >= 0 ==> r < |types| && IsMapped(canon, typeId) && canon[r] == r && r == Resolve(canon, typeId)
      ensures r >= 0 && exact ==> Same(types, typeId, types, r)
      ensures RefBlamed(origin, rank, memory, r)
      ensures Pending(canon) <= Pending(old(canon))
      decreases Pending(canon), 1
    {
      if canon[typeId] == BTF_IN_PROGRESS_ID {
        assert IsRefKind(Kind(types[typeId]));
        return ELOOP;
      }
      if canon[typeId] <= BTF_MAX_NR_TYPES {
        if exact {
          SoundTransfer(origin, types, canon);
          SoundResolve(types, canon, typeId);
        }
        ResolveMapped(canon, typeId);
        r := ResolveTypeId(canon, typeId);
        return;
      }
      r := RefUnmapped(typeId, rank);
    }

    /** The part for a type that has no representative yet. */
    method RefUnmapped(typeId: nat, ghost rank: seq<nat>) returns (r: int)
      requires Valid() && typeId < |types| && IsMapped(canon, 0) && RefOk() && typeId in Pending(canon)
      requires UnderWayAbove(origin, canon, rank, typeId)
      modifies this`types, this`canon, dedupTable
      ensures Valid() && RefFrame(old(types), old(canon), types, canon)
      ensures r >= 0 ==> RefOk() && NoMoreUnderWay(old(canon), canon)
      ensures r >= 0 ==> r < |types| && IsMapped(canon, typeId) && canon[r] == r && r == Resolve(canon, typeId)
      ensures r >= 0 && exact ==> Same(types, typeId, types, r)
      ensures RefBlamed(origin, rank, memory, r)
      ensures Pending(canon) <= Pending(old(canon))
      decreases Pending(canon), 0
    {
      ghost var g, m := types, canon;
      MarkInProgress(typeId);
      if !IsRefKind(Kind(types[typeId])) { return EINVAL; }
      UnderWayUnmarked(origin, m, rank, typeId);
      r := RefMarked(typeId, rank);
      FrameUnmarked(g, m, types, canon, typeId);
      if r >= 0 { LinkedRoot(canon, typeId, r); }
    }

    /** Resolves the references of a type that is marked, and records its representative. */
    method RefMarked(typeId: nat, ghost rank: seq<nat>) returns (r: int)
      requires Valid() && typeId < |types| && IsMapped(canon, 0) && canon[typeId] == BTF_IN_PROGRESS_ID
      requires RefOk() && types[typeId] == origin[typeId] && IsRefKind(Kind(types[typeId]))
      requires UnderWayAbove(origin, canon[typeId := BTF_UNPROCESSED_ID], rank, typeId)
      modifies this`types, this`canon, dedupTable
      ensures Valid() && RefFrameMarked(old(types), old(canon), types, canon, typeId)
      ensures r >= 0 ==> RefOk() && NoMoreUnderWay(old(canon), canon)
      ensures r >= 0 ==> r < |types| && canon[typeId] == r && canon[r] == r
      ensures r >= 0 && exact ==> Same(types, typeId, types, r)
      ensures RefBlamed(origin, rank, memory, r)
      ensures Pending(canon) <= Pending(old(canon))
      decreases Pending(canon), 5
    {
      ghost var g0, m0 := types, canon;
      r := RefOperands(typeId, rank);
      ghost var m1 := canon;
      if r >= 0 { OperandMoved(origin, g0, m0, types, canon, typeId); }
      MarkedFrame(g0, m0, types, m1, canon, typeId);
      if r < 0 { return; }
      OperandEnd(origin, g0, m0, types, canon, typeId);
      r := RecordRef(typeId);
      MarkedFrame(g0, m0, types, m1, canon, typeId);
    }

    /** Resolves the references of `typeId` one after the other, rewriting each in place. */
    method RefOperands(typeId: nat, ghost rank: seq<nat>) returns (err: int)
      requires Valid() && typeId < |types| && IsMapped(canon, 0) && canon[typeId] == BTF_IN_PROGRESS_ID
      requires RefOk() && types[typeId] == origin[typeId] && IsRefKind(Kind(types[typeId]))
      requires UnderWayAbove(origin, canon[typeId := BTF_UNPROCESSED_ID], rank, typeId)
      modifies this`types, this`canon, dedupTable
      ensures Valid() && RefBlamed(origin, rank, memory, err)
      ensures err < 0 ==> RefMoved(old(types), old(canon), types, canon, typeId)
      ensures err >= 0 ==> RefOk() && typeId < |types|
      ensures err >= 0 ==> OperandState(origin, old(types), old(canon), types, canon, typeId, |types[typeId].refs|)
      decreases Pending(canon), 4
    {
      var j := 0;
      OperandStart(origin, types, canon, typeId);
      while j < |types[typeId].refs|
        invariant Valid() && RefOk()
        invariant OperandState(origin, old(types), old(canon), types, canon, typeId, j)
        decreases |types[typeId].refs| - j
      {
        err := NextOperand(typeId, j, rank, old(types), old(canon));
        if err < 0 { return; }
        j := j + 1;
      }
      return OK;
    }

    /** One turn of that loop. */
    method NextOperand(typeId: nat, j: nat, ghost rank: seq<nat>, ghost g0: BtfGraph, ghost m0: seq<nat>)
      returns (err: int)
      requires Valid() && RefOk() && typeId < |types| && j < |types[typeId].refs|
      requires OperandState(origin, g0, m0, types, canon, typeId, j)
      requires UnderWayAbove(origin, m0[typeId := BTF_UNPROCESSED_ID], rank, typeId)
      modifies this`types, this`canon, dedupTable
      ensures Valid() && RefBlamed(origin, rank, memory, err)
      ensures err < 0 ==> RefMoved(g0, m0, types, canon, typeId)
      ensures err >= 0 ==> RefOk() && OperandState(origin, g0, m0, types, canon, typeId, j + 1)
      decreases Pending(canon), 3
    {
      ghost var g, m := types, canon;
      OperandFacts(origin, g0, m0, types, canon, rank, typeId, j);
      err := RefOperand(typeId, j, rank);
      if err < 0 {
        RefMovedOn(origin, g0, m0, g, m, types, canon, typeId, j);
      } else {
        OperandStep(origin, g0, m0, g, m, types, canon, typeId, j);
      }
    }

    /** Resolves reference `j` of `typeId` and rewrites it. */
    method RefOperand(typeId: nat, j: nat, ghost rank: seq<nat>) returns (err: int)
      requires Valid() && typeId < |types| && IsMapped(canon, 0) && canon[typeId] == BTF_IN_PROGRESS_ID
      requires RefOk() && j < |types[typeId].refs| && RootsUpTo(types, canon, typeId, j)
      requires OperandsLeft(origin, types, canon, typeId, j) && IsRefKind(Kind(types[typeId]))
      requires UnderWayAbove(origin, canon[typeId := BTF_UNPROCESSED_ID], rank, typeId)
      modifies this`types, this`canon, dedupTable
      ensures Valid() && RefBlamed(origin, rank, memory, err)
      ensures err < 0 ==> RefMoved(old(types), old(canon), types, canon, typeId)
      ensures err >= 0 ==> RefOk() && OperandState(origin, old(types), old(canon), types, canon, typeId, j + 1)
      decreases Pending(canon), 2
    {
      ghost var g, m := types, canon;
      UnderWayBelow(origin, canon, rank, typeId, j);
      var r := RefType(types[typeId].refs[j], rank);
      if r < 0 {
        FrameMoved(g, m, types, canon, typeId);
        return r;
      }
      OperandDone(origin, g, m, types, canon, typeId, j, r);
      SetRef(typeId, j, r);
      return OK;
    }

    /** Finds or makes the representative of a type whose references are resolved. */
    method RecordRef(typeId: nat) returns (r: int)
      requires Valid() && 0 < typeId < |types| && IsRefKind(Kind(types[typeId])) && !IsMapped(canon, typeId)
      requires RefOk() && RootsUpTo(types, canon, typeId, |types[typeId].refs|)
      requires OperandsMapped(origin, canon, typeId, |origin[typeId].refs|)
      requires RootedUpTo(origin, types, canon, typeId, |types[typeId].refs|)
      modifies this`canon, dedupTable
      ensures r >= 0 ==> RefOk() && r < |canon| && canon[r] == r
      ensures Valid() && canon == old(canon)[typeId := canon[typeId]] && canon[typeId] < |types|
      ensures r >= 0 ==> r < |types| && canon == old(canon)[typeId := r]
      ensures r >= 0 && exact ==> Same(types, typeId, types, r)
      ensures r < 0 ==> r == ENOMEM && !memory
    {
      var h := RefHash(types[typeId]);
      var cands := Candidates(h);
      RefCandsOk(types, canon, Index(), h, cands);
      var newId := MapRef(typeId, cands);
      RefRecorded(origin, types, old(canon), Index(), cands, typeId, newId);
      if newId == typeId {
        var err := TableAdd(h, typeId);
        if err != OK { return ENOMEM; }
      }
      return newId;
    }

    /** `btf_dedup_ref_types`: it fails only for want of memory or at a circle of references. */
    method RefTypes() returns (err: int)
      requires Valid() && types == origin && RefStartOk(types, canon)
      modifies this`types, this`canon, dedupTable
      ensures Valid()
      ensures err <= 0 && (err < 0 ==> (err == ENOMEM && !memory) || (err == ELOOP && !RefsAcyclic(origin)))
      ensures err >= 0 ==> RefEndOk(origin, old(canon), types, canon)
    {
      ghost var rank: seq<nat> := [];
      if RefsAcyclic(origin) { rank :| RanksRefs(origin, rank); }
      RefTableStart(types, canon, Index());
      RefStateStart(types, canon);
      RefsRootedStart(types, canon);
      err := AllRefs(rank);
    }

    /** The loop over all types. */
    method AllRefs(ghost rank: seq<nat>) returns (err: int)
      requires Valid() && types == origin && RefStartOk(types, canon) && RefOk()
      modifies this`types, this`canon, dedupTable
      ensures Valid() && err <= 0 && RefBlamed(origin, rank, memory, err)
      ensures err >= 0 ==> RefEndOk(origin, old(canon), types, canon)
    {
      var i := 1;
      while i < |types|
        invariant 1 <= i <= |types| && Valid() && RefOk()
        invariant RefProgress(origin, old(canon), types, canon, i)
      {
        ghost var g, m := types, canon;
        RefProgressFacts(origin, old(canon), types, canon, rank, i);
        err := RefType(i, rank);
        if err < 0 { return; }
        RefProgressStep(origin, old(canon), g, m, types, canon, i);
        i := i + 1;
      }
      AllMappedAcyclic(origin, types, canon);
      return OK;
    }

    // ----- compaction and remapping

    /** `btf_dedup_compact_types`: keeps the self-mapped types, in order, and records their new ids. */
    method CompactTypes() returns (err: int)
      requires 0 < |types| == |canon| <= BTF_MAX_NR_TYPES + 1
      modifies this`types, this`hypotMap
      ensures err == OK || (err == ENOMEM && !memory)
      ensures hypotMap == NewIds(canon)
      ensures err == OK ==> Compacted(old(types), canon, types)
    {
      var n := |types|;
      var ids: seq<nat> := seq(n, i => if i == 0 then 0 else BTF_UNPROCESSED_ID);
      var next := 1;
      var i := 1;
      CompactStart(types, canon, ids);
      while i < n
        invariant 1 <= i <= n && CompactInv(old(types), canon, types, ids, i, next)
      {
        CompactStep(old(types), canon, types, ids, i, next);
        if canon[i] == i {
          ids := ids[i := next];
          types := types[next := types[i]];
          next := next + 1;
        }
        i := i + 1;
      }
      hypotMap := ids;
      CompactEnd(old(types), canon, types, ids, next);
      types := types[..next];
      err := OK;
      if !memory {
        var granted: bool := *;
        if !granted { err := ENOMEM; }
      }
    }

    /** `btf_dedup_remap_type_id`: cannot fail once every id is mapped. */
    method RemapTypeId(typeId: nat) returns (r: int)
      requires |canon| <= BTF_MAX_NR_TYPES + 1 && Forest(canon) && typeId < |canon| && hypotMap == NewIds(canon)
      requires AllMapped(canon)
      ensures r == FinalId(canon, typeId)
    {
      var root := ResolveTypeId(canon, typeId);
      NewIdsBounded(canon);
      assert canon[root] == root;
      r := hypotMap[root];
      if r > BTF_MAX_NR_TYPES { return EINVAL; }
    }

    /** `btf_dedup_remap_type`. */
    method RemapType(typeId: nat) returns (err: int)
      requires |canon| <= BTF_MAX_NR_TYPES + 1 && Forest(canon) && hypotMap == NewIds(canon) && AllMapped(canon)
      requires typeId < |types| && Kind(types[typeId]) != KIND_UNKN
      requires forall j :: 0 <= j < |types[typeId].refs| ==> types[typeId].refs[j] < |canon|
      modifies this`types
      ensures err == OK
      ensures types == old(types)[typeId := RemappedNode(canon, old(types)[typeId])]
    {
      if Kind(types[typeId]) == KIND_UNKN { return EINVAL; }
      var t := types[typeId];
      var j := 0;
      while j < |t.refs|
        invariant j <= |t.refs| && t.sig == old(types)[typeId].sig && |t.refs| == |old(types)[typeId].refs|
        invariant types == old(types)[typeId := t]
        invariant forall k :: 0 <= k < |t.refs| ==>
                    t.refs[k] == if k < j then FinalId(canon, old(types)[typeId].refs[k])
                                 else old(types)[typeId].refs[k]
      {
        var r := RemapTypeId(t.refs[j]);
        if r < 0 { return r; }
        t := WithRef(t, j, r);
        types := types[typeId := t];
        j := j + 1;
      }
      assert t.refs == RemappedNode(canon, old(types)[typeId]).refs;
      return OK;
    }

    /** `btf_dedup_remap_types`. */
    method RemapTypes() returns (err: int)
      requires |canon| <= BTF_MAX_NR_TYPES + 1 && Forest(canon) && hypotMap == NewIds(canon) && AllMapped(canon)
      requires |types| > 0 && types[0].refs == []
      requires forall i :: 0 < i < |types| ==> Kind(types[i]) != KIND_UNKN
      requires forall i, j :: 0 <= i < |types| && 0 <= j < |types[i].refs| ==> types[i].refs[j] < |canon|
      modifies this`types
      ensures err == OK && |types| == |old(types)|
      ensures forall i :: 0 <= i < |types| ==> types[i] == RemappedNode(canon, old(types)[i])
    {
      var i := 1;
      assert RemappedNode(canon, types[0]) == types[0];
      while i < |types|
        invariant 1 <= i <= |types| == |old(types)|
        invariant forall k :: 0 <= k < |types| ==>
                    types[k] == if k < i then RemappedNode(canon, old(types)[k]) else old(types)[k]
      {
        err := RemapType(i);
        if err < 0 { return; }
        i := i + 1;
      }
      return OK;
    }

    /** Passes 2 to 6 of `btf__dedup`: original id `id` becomes `FinalId(canon, id)`.  Unless there are
        forwards to resolve, a successful run keeps the meaning of every type; if there are, forwards are
        resolved where the check met them.  It fails only for want of memory, at types of unknown kind,
        types that cannot be compared, or circles of references. */
    method DedupTypes() returns (err: int)
      requires Valid() && canon == InitialCanon(types) && Index() == iset{} && types == origin
      modifies this, dedupTable
      ensures GraphOk(origin) && |canon| == |origin| && Forest(canon)
      ensures err <= 0 && PassBlamed(origin, memory, err)
      ensures err == OK ==> AllMapped(canon) && WellFormed(types) && |types| == 1 + SelfCount(canon, |canon|)
      ensures err == OK ==> forall id :: 0 <= id < |origin| ==> FinalId(canon, id) < |types|
      ensures err == OK ==> Irredundant(types, PlainForwards(origin))
      ensures err == OK ==> SignaturesFrom(types, origin) && NoUnknown(origin) && RefsAcyclic(origin)
      ensures err == OK ==> FinalSignatures(origin, canon, types) && ShapesKept(origin, canon, types)
      ensures err == OK ==> FinalReferences(origin, canon, types)
      ensures err == OK ==> Partnered(origin, canon) && StructsRefused(origin, canon, |origin|, exact)
      ensures err == OK && !dontResolveFwds ==> EnumsFollow(origin, canon)
      ensures err == OK && exact ==>
                && WellFormed(origin)
                && forall id :: 0 <= id < |origin| ==> Same(origin, id, types, FinalId(canon, id))
      ensures err == OK && exact && PlainForwards(origin) ==> StructsJoin(origin, canon)
      ensures err == OK && exact && PlainForwards(origin) && NoVariables(origin) && ConflictFree(origin) ==>
                OneIdPerMeaning(origin, canon)
    {
      err := MapTypes();
      if err < 0 { return; }
      err := Finish();
    }

    /** Passes 2 to 4: afterwards every type is mapped. */
    method MapTypes() returns (err: int)
      requires Valid() && canon == InitialCanon(types) && Index() == iset{} && types == origin
      modifies this, dedupTable
      ensures StateOk() && GraphOk(origin)
      ensures err <= 0 && PassBlamed(origin, memory, err)
      ensures err >= 0 ==> MapFacts(origin, types, canon, exact, dontResolveFwds)
    {
      err := MapStructs();
      if err < 0 { return; }
      ghost var m0 := canon;
      err := RefTypes();
      if err < 0 { return; }
      MapFactsHold(origin, m0, types, canon, exact, dontResolveFwds);
    }

    /** Passes 2 and 3. */
    method MapStructs() returns (err: int)
      requires Valid() && canon == InitialCanon(types) && Index() == iset{} && types == origin
      modifies this`canon, this`hypotMap, this`hypotList, dedupTable
      ensures Valid()
      ensures err <= 0 && PassBlamed(origin, memory, err)
      ensures err == OK ==> StructFacts(types, canon, exact, dontResolveFwds)
    {
      err := PrimTypes();
      if err < 0 { return; }
      PrimEnd(types, canon);
      PrimStructs(types, canon);
      ghost var m1 := canon;
      err := StructTypes();
      if err < 0 { return; }
      StructEnd(types, m1, canon);
      StructLeft(types, m1, canon);
      if !dontResolveFwds { EnumsStay(types, m1, canon); }
    }

    /** Compaction and remapping of a fully mapped graph. */
    method Finish() returns (err: int)
      requires StateOk() && MapFacts(origin, types, canon, exact, dontResolveFwds)
      modifies this`types, this`hypotMap
      ensures err == OK ==> WellFormed(types) && |types| == 1 + SelfCount(canon, |canon|)
      ensures err == OK ==> forall id :: 0 <= id < |origin| ==> FinalId(canon, id) < |types|
      ensures err == OK ==> Irredundant(types, PlainForwards(origin))
      ensures err <= 0 && (err < 0 ==> err == ENOMEM && !memory)
      ensures err == OK ==> SignaturesFrom(types, origin) && ShapesKept(origin, canon, types)
      ensures err == OK ==> FinalSignatures(origin, canon, types) && FinalReferences(origin, canon, types)
      ensures err == OK && exact ==>
                && WellFormed(origin)
                && forall id :: 0 <= id < |origin| ==> Same(origin, id, types, FinalId(canon, id))
    {
      ghost var g := types;
      err := CompactTypes();
      if err < 0 { return; }
      ghost var h := types;
      CompactedRefs(g, canon, h);
      err := RemapTypes();
      RemappedWellFormed(g, canon, h, types);
      NoDuplicates(g, canon, h, types, PlainForwards(origin));
      CompactedSignatures(origin, g, canon, h, types);
      KeepShapes(origin, g, canon, h, types);
      FinalReferencesHold(origin, g, canon, h, types);
      if exact {
        SoundTransfer(origin, g, canon);
        RemapKeepsMeaning(g, canon, h, types);
        MeaningFromOrigin(origin, g, canon, types);
      }
    }
  }

  /** Recording the representative of a primitive keeps forest and soundness. */
  lemma {:induction false} PrimKeeps(origin: BtfGraph, g: BtfGraph, m: seq<nat>, x: nat, y: nat, exact: bool)
    requires WellFormed(g) && |m| == |g| == |origin| && Forest(m) && Links(g, m) && x < |g| && y < |g|
    requires exact ==> SameGraph(origin, g) && SoundMap(origin, m)
    requires Represents(g, g[x].sig, g[y].sig)
    requires y != x ==> g[y] == g[x] || (!exact && IsEnumFwd(g[x]))
    requires y != x && !IsEnumFwd(g[x]) ==> !IsLink(m, y)
    requires IsEnumFwd(g[x]) ==> forall i :: 0 <= i < |m| && IsLink(m, i) ==> m[i] != x
    ensures Forest(m[x := y]) && Links(g, m[x := y])
    ensures exact ==> SoundMap(origin, m[x := y])
  {
    if y == x {
      RootKeeps(origin, m, x, x, exact);
    } else {
      if g[y] == g[x] { EqualNodesSame(g, x, y); }
      if IsEnumFwd(g[x]) {
        FreshKeeps(origin, g, m, x, y, exact);
      } else {
        LinkKeeps(origin, g, m, x, y, exact);
      }
    }
    LinksSet(g, m, x, y);
  }

  /** Candidate `c` is no enum that `n` is the forward of, and is redirected to `n` if it is a forward of
      it. */
  ghost predicate EnumTaken(g: BtfGraph, m: seq<nat>, c: nat, n: nat)
    requires n < |g| == |m| && c < |g|
  {
    !StandsFor(g[n].sig, g[c].sig) && (StandsFor(g[c].sig, g[n].sig) ==> m[c] == n)
  }

  lemma {:induction false} VisitedOk(g: BtfGraph, c: nat, k: nat)
    requires WellFormed(g) && Layouts(g) && c < |g| && k < |g| && Kind(g[c]) == Kind(g[k])
    requires !IsEnum(g[c]) ==> g[c].sig == g[k].sig
    ensures |Visited(g[c])| == |Visited(g[k])|
    ensures forall j :: 0 <= j < |Visited(g[c])| ==> Visited(g[c])[j] < |g| && Visited(g[k])[j] < |g|
    ensures forall j :: 0 <= j < |Visited(g[c])| ==>
              g[c].sig == g[k].sig && IsChildPair(g[c], g[k], Visited(g[c])[j], Visited(g[k])[j])
  {
    VisitedInRange(g, c);
    VisitedInRange(g, k);
    VisitedLength(g[c], g[k]);
    VisitedPairs(g[c], g[k]);
  }

  /** What the check visits can be compared. */
  lemma {:induction false} VisitedComparable(g: BtfGraph, c: nat, k: nat)
    requires WellFormed(g) && Layouts(g) && ProperRefs(g) && c < |g| && k < |g| && Comparable(g, c) && Comparable(g, k)
    ensures forall x :: x in Visited(g[c]) ==> x < |g| && Comparable(g, x)
    ensures forall x :: x in Visited(g[k]) ==> x < |g| && Comparable(g, x)
  {
    VisitedInRange(g, c);
    VisitedInRange(g, k);
    assert ComparableRefs(g, c) && ComparableRefs(g, k);
  }

  /** The choice of `x` for type `n`: an equal candidate, for a forward enum possibly the enum it stands
      for, or `n` itself when no candidate is equal.  Forward enums may have been redirected to `n`. */
  ghost predicate PrimChoice(g: BtfGraph, m0: seq<nat>, m: seq<nat>, cands: seq<nat>, n: nat, x: nat, exact: bool,
                             dontResolve: bool)
    requires n < |g| == |m0| && forall j :: 0 <= j < |cands| ==> cands[j] < |g|
  {
    && |m| == |m0| && m[n] == m0[n] && (x == n || x in cands) && Kind(g[x]) == Kind(g[n])
    && (x != n ==> g[x] == g[n] || (!exact && IsEnumFwd(g[n]))) && Represents(g, g[n].sig, g[x].sig)
    && (x == n ==> forall j :: 0 <= j < |cands| ==> g[cands[j]] != g[n])
    && (exact || IsEnumFwd(g[n]) || !IsEnum(g[n]) ==> m == m0)
    && (!dontResolve && IsEnum(g[n]) && x == n ==> forall j :: 0 <= j < |cands| ==> EnumTaken(g, m, cands[j], n))
    && forall i :: 0 <= i < |m| ==> m[i] == m0[i] || (i < n && IsEnumFwd(g[i]) && m[i] == n)
  }

  lemma {:induction false} ChoiceKeeps(origin: BtfGraph, g: BtfGraph, m0: seq<nat>, m: seq<nat>, cands: seq<nat>,
                                       n: nat, x: nat, exact: bool, dontResolve: bool)
    requires GraphOk(g) && |m| == |m0| == |g| == |origin| && Forest(m) && Links(g, m) && 0 < n < |g| && IsPrim(g[n])
    requires exact ==> SameGraph(origin, g) && SoundMap(origin, m0)
    requires PrimState(g, m0, n, dontResolve) && PrimCands(g, m0, cands, n)
    requires PrimChoice(g, m0, m, cands, n, x, exact, dontResolve)
    ensures Forest(m[n := x]) && Links(g, m[n := x]) && (exact ==> SoundMap(origin, m[n := x]))
    ensures PrimState(g, m[n := x], n + 1, dontResolve) && PrimGrows(g, m0, m[n := x], n)
  {
    PrimKeeps(origin, g, m, n, x, exact);
    PrimStep(g, m0, m, n, x);
    if !dontResolve { EnumsStep(g, m0, m, cands, n, x, exact); }
  }

  /** The state of the primitive pass, with forward enums redirected unless they are to stay. */
  ghost predicate PrimState(g: BtfGraph, m: seq<nat>, n: nat, dontResolve: bool) {
    PrimProgress(g, m, n) && (dontResolve || EnumsResolved(g, m, n))
  }

  lemma {:induction false} EnumsSkip(g: BtfGraph, m: seq<nat>, n: nat)
    requires EnumsResolved(g, m, n) && 0 < n < |g| && !IsPrim(g[n])
    ensures EnumsResolved(g, m, n + 1)
  {
    forall i, j | 0 < i < n + 1 && 0 < j < n + 1 ensures EnumResolved(g, m, i, j) {
      if i < n && j < n { assert EnumResolved(g, m, i, j); }
    }
  }

  /** Every forward enum before type `n` that stands for an enum before it is redirected. */
  ghost predicate EnumsResolved(g: BtfGraph, m: seq<nat>, n: nat) {
    |m| == |g| && n <= |g| && forall i, j :: 0 < i < n && 0 < j < n ==> EnumResolved(g, m, i, j)
  }

  ghost predicate EnumResolved(g: BtfGraph, m: seq<nat>, i: nat, j: nat)
    requires |m| == |g| && i < |g| && j < |g|
  {
    IsEnum(g[i]) && StandsFor(g[i].sig, g[j].sig) ==> m[i] != i
  }

  lemma {:induction false} EnumsStep(g: BtfGraph, m0: seq<nat>, m: seq<nat>, cands: seq<nat>, n: nat, x: nat,
                                     exact: bool)
    requires Layouts(g) && |m| == |m0| == |g| && 0 < n < |g| && IsPrim(g[n])
    requires PrimProgress(g, m0, n) && PrimCands(g, m0, cands, n) && PrimChoice(g, m0, m, cands, n, x, exact, false)
    requires EnumsResolved(g, m0, n)
    ensures EnumsResolved(g, m[n := x], n + 1)
  {
    var m' := m[n := x];
    forall i, j | 0 < i < n + 1 && 0 < j < n + 1 ensures EnumResolved(g, m', i, j) {
      if IsEnum(g[i]) && StandsFor(g[i].sig, g[j].sig) {
        StandsCompat(g[i], g[j]);
        EnumStep(g, m0, m, cands, n, x, i, j, exact);
      }
    }
  }

  lemma {:induction false} EnumStep(g: BtfGraph, m0: seq<nat>, m: seq<nat>, cands: seq<nat>, n: nat, x: nat, i: nat,
                                    j: nat, exact: bool)
    requires Layouts(g) && |m| == |m0| == |g| && 0 < n < |g| && IsPrim(g[n]) && 0 < i < n + 1 && 0 < j < n + 1
    requires PrimProgress(g, m0, n) && PrimCands(g, m0, cands, n) && PrimChoice(g, m0, m, cands, n, x, exact, false)
    requires EnumsResolved(g, m0, n) && IsEnumFwd(g[i]) && IsEnum(g[j]) && !IsEnumFwd(g[j])
    requires StandsFor(g[i].sig, g[j].sig)
    ensures m[n := x][i] != i
  {
    if i == n {
      var r := m0[j];
      assert m0[r] == r && g[r] == g[j] && 0 < r < n;
      assert r in cands;
      var k :| 0 <= k < |cands| && cands[k] == r;
      assert !EnumTaken(g, m, cands[k], n);
    } else if j < n {
      assert EnumResolved(g, m0, i, j);
    } else if x != n {
      assert EnumResolved(g, m0, i, x);
    } else if m0[i] == i {
      assert i in cands;
      var k :| 0 <= k < |cands| && cands[k] == i;
      assert EnumTaken(g, m, cands[k], n);
    }
  }

  /** Types of unchanged meaning have nothing new to resolve. */
  lemma {:induction false} ExactStays(origin: BtfGraph, g: BtfGraph, dontResolve: bool)
    requires SameGraph(origin, g) && Exact(dontResolve, origin)
    ensures Exact(dontResolve, g)
  {
    if !dontResolve {
      forall i, j | 0 <= i < |g| && 0 <= j < |g| ensures Unrelated(g, i, j) {
        SameLabel(origin, i, g, i);
        SameLabel(origin, j, g, j);
        assert Unrelated(origin, i, j);
      }
    }
  }

  /** Recording the representative of a struct or union keeps everything. */
  lemma {:induction false} StructMapped(origin: BtfGraph, g: BtfGraph, m: seq<nat>, r: seq<nat>, x: nat, y: nat,
                                        exact: bool)
    requires GraphOk(g) && |m| == |g| == |origin| && Forest(r) && Links(g, r) && StructAdvance(g, m, r)
    requires CanonGrows(g, m, r) && NoNewSelf(m, r, 0) && 0 < x < |g| && y < |g| && IsComposite(g[x]) && !IsMapped(m, x)
    requires exact ==> SameGraph(origin, g) && SoundMap(origin, r) && Same(g, x, g, y)
    requires if y == x then r == m else m[y] == y && g[y].sig == g[x].sig && IsPartner(g, r, x, y)
    ensures Forest(r[x := y]) && Links(g, r[x := y]) && (exact ==> SoundMap(origin, r[x := y]))
    ensures CanonGrows(g, m, r[x := y]) && NoNewSelf(m, r[x := y], x) && StructAdvance(g, m, r[x := y])
  {
    assert CanonGrowsAt(g, m, r, y);
    if y != x {
      LinkKeeps(origin, g, r, x, y, exact);
    } else {
      RootKeeps(origin, r, x, x, exact);
    }
    CanonGrowsSet(g, m, r, x, y);
    LinksSet(g, r, x, y);
    RecordStep(g, m, r, x, y);
  }

  lemma {:induction false} CanonGrowsMapped(g: BtfGraph, m: seq<nat>, m': seq<nat>)
    requires CanonGrows(g, m, m')
    ensures |MappedIds(m)| <= |MappedIds(m')|
    ensures forall x :: 0 <= x < |m| && !IsMapped(m, x) && IsMapped(m', x) ==> |MappedIds(m)| < |MappedIds(m')|
  {
    forall i | 0 <= i < |m| && IsMapped(m, i) ensures IsMapped(m', i) { assert CanonGrowsAt(g, m, m', i); }
    MappedGrows(m, m');
  }

  /** The struct pass keeps the table in order, with room for each id that it maps. */
  lemma {:induction false} TableKept(g: BtfGraph, m: seq<nat>, m': seq<nat>, index: iset<(u64, nat)>, x: nat)
    requires CanonGrows(g, m, m') && TableIds(g, m, index) && x < |m|
    ensures TableIds(g, m', index) && |MappedIds(m)| <= |MappedIds(m')|
    ensures !IsMapped(m, x) && IsMapped(m', x) ==> |MappedIds(m)| < |MappedIds(m')|
  {
    CanonGrowsTable(g, m, m', index);
    CanonGrowsMapped(g, m, m');
  }

  lemma {:induction false} StructFiled(g: BtfGraph, m: seq<nat>, m': seq<nat>, index: iset<(u64, nat)>, x: nat,
                                       cands: seq<nat>, exact: bool)
    requires GraphOk(g) && Forest(m) && StructIndexed(g, m, index) && NoNewSelf(m, m', x) && 0 < x < |g|
    requires IsComposite(g[x]) && forall j :: 0 <= j < |cands| ==> cands[j] < |g|
    requires forall id :: id in cands <==> (HashStruct(g[x]), id) in index
    requires || (m'[x] in cands && !Unsettleable(g, m, x, m'[x], exact))
             || (m'[x] == x && NoneFits(g, m, x, cands, |cands|, exact))
    requires x !in cands
    ensures StructPlaced(g, m, index, x, m'[x], exact)
    ensures m'[x] != x ==> StructIndexed(g, m', index)
    ensures StructIndexed(g, m', index + iset{(HashStruct(g[x]), x)})
  {
    PlacedFrom(g, m, index, x, cands, m'[x], exact);
    StructIndexedStep(g, m, m', index, x);
  }

  /** A struct or union that becomes canonical was refused by the earlier ones of its signature. */
  lemma {:induction false} StructsRefusedStep(g: BtfGraph, m: seq<nat>, m': seq<nat>, index: iset<(u64, nat)>, x: nat,
                                              dontResolve: bool)
    requires GraphOk(g) && Forest(m) && StructsRefused(g, m, x, dontResolve) && StructIndexed(g, m, index)
    requires NoSelfFrom(g, m, x) && CanonGrows(g, m, m') && NoNewSelf(m, m', x) && Advances(g, m, m') && 0 < x < |g|
    requires IsComposite(g[x]) && !IsMapped(m, x) ==> StructPlaced(g, m, index, x, m'[x], dontResolve)
    ensures StructsRefused(g, m', x + 1, dontResolve)
  {
    forall i, j | 0 < i < j < x + 1 ensures PairRefused(g, m', i, j, dontResolve) {
      if IsComposite(g[i]) && IsComposite(g[j]) && m'[i] == i && m'[j] == j && g[j].sig == g[i].sig {
        if j < x {
          assert PairRefused(g, m, i, j, dontResolve);
        } else {
          LastRefused(g, m, m', index, x, i, dontResolve);
        }
        StaysRefused(g, m, m', i, j, dontResolve);
      }
    }
  }

  lemma {:induction false} LastRefused(g: BtfGraph, m: seq<nat>, m': seq<nat>, index: iset<(u64, nat)>, x: nat, i: nat,
                                       dontResolve: bool)
    requires GraphOk(g) && Forest(m) && StructIndexed(g, m, index) && NoSelfFrom(g, m, x)
    requires CanonGrows(g, m, m') && NoNewSelf(m, m', x) && 0 < i < x < |g|
    requires IsComposite(g[x]) && !IsMapped(m, x) ==> StructPlaced(g, m, index, x, m'[x], dontResolve)
    requires IsComposite(g[i]) && IsComposite(g[x]) && m'[i] == i && m'[x] == x && g[x].sig == g[i].sig
    ensures WasRefused(g, m, i, x, dontResolve)
  {
    assert CanonGrowsAt(g, m, m', x);
    assert HashStruct(g[i]) == HashStruct(g[x]);
    AdvancesSelf(g, m);
  }

  lemma {:induction false} MarkKeepsTable(origin: BtfGraph, g: BtfGraph, m: seq<nat>, index: iset<(u64, nat)>, x: nat)
    requires TableIds(g, m, index) && RefTable(g, m, index) && RefState(origin, g, m)
    requires |g| <= BTF_MAX_NR_TYPES + 1 && x < |g| && x in Pending(m)
    ensures var m' := m[x := BTF_IN_PROGRESS_ID];
            TableIds(g, m', index) && RefTable(g, m', index) && RefState(origin, g, m') && MappedIds(m') == MappedIds(m)
  {
    var m' := m[x := BTF_IN_PROGRESS_ID];
    TableIdsFrame(g, m, g, m', index);
    TargetsStayMapped(m, x, BTF_IN_PROGRESS_ID);
    RefTableFrame(g, m, g, m', index);
    RefStateFrame(origin, g, m, g, m');
  }

  /** Only reference types are left to map, and none is under way. */
  ghost predicate OnlyRefsLeft(g: BtfGraph, m: seq<nat>) {
    |m| == |g| && forall k :: 0 <= k < |g| ==>
      (IsMapped(m, k) <==> !IsRefKind(Kind(g[k]))) && m[k] != BTF_IN_PROGRESS_ID
  }

  /** What resolving the references of `x` may change, and the entry of `x` itself. */
  ghost predicate RefFrameMarked(g0: BtfGraph, m0: seq<nat>, g: BtfGraph, m: seq<nat>, x: nat) {
    && |g0| == |m0| == |g| == |m| && x < |g|
    && (forall k :: 0 <= k < |g| ==> g[k].sig == g0[k].sig && |g[k].refs| == |g0[k].refs|)
    && (forall k :: 0 <= k < |g| && k !in Pending(m0) && k != x ==> g[k] == g0[k] && m[k] == m0[k])
  }

  /** What resolving references of `x` may have changed. */
  ghost predicate RefMoved(g0: BtfGraph, m0: seq<nat>, g: BtfGraph, m: seq<nat>, x: nat) {
    RefFrameBut(g0, m0, g, m, x) && Pending(m) <= Pending(m0)
  }

  lemma {:induction false} OperandMoved(origin: BtfGraph, g0: BtfGraph, m0: seq<nat>, g: BtfGraph, m: seq<nat>, x: nat)
    requires x < |g| && OperandState(origin, g0, m0, g, m, x, |g[x].refs|)
    ensures RefMoved(g0, m0, g, m, x)
  {
  }

  lemma {:induction false} FrameMoved(g0: BtfGraph, m0: seq<nat>, g: BtfGraph, m: seq<nat>, x: nat)
    requires RefFrame(g0, m0, g, m) && Pending(m) <= Pending(m0) && x < |g|
    ensures RefMoved(g0, m0, g, m, x)
  {
  }

  lemma {:induction false} RefMovedOn(origin: BtfGraph, g0: BtfGraph, m0: seq<nat>, g1: BtfGraph, m1: seq<nat>,
                                      g: BtfGraph, m: seq<nat>, x: nat, n: nat)
    requires OperandState(origin, g0, m0, g1, m1, x, n) && RefMoved(g1, m1, g, m, x)
    ensures RefMoved(g0, m0, g, m, x)
  {
    RefFrameButTrans(g0, m0, g1, m1, g, m, x);
  }

  lemma {:induction false} MarkedFrame(g0: BtfGraph, m0: seq<nat>, g: BtfGraph, m1: seq<nat>, m: seq<nat>, x: nat)
    requires RefMoved(g0, m0, g, m1, x)
    requires m0[x] == BTF_IN_PROGRESS_ID && |m| == |m1| && (m == m1 || (m == m1[x := m[x]] && m[x] <= BTF_MAX_NR_TYPES))
    ensures RefFrameMarked(g0, m0, g, m, x) && Pending(m) <= Pending(m0)
    ensures NoMoreUnderWay(m0, m1) ==> NoMoreUnderWay(m0, m)
  {
  }

  /** All references of `x` are resolved. */
  lemma {:induction false} OperandEnd(origin: BtfGraph, g0: BtfGraph, m0: seq<nat>, g: BtfGraph, m: seq<nat>, x: nat)
    requires x < |g| && OperandState(origin, g0, m0, g, m, x, |g[x].refs|)
    ensures x < |origin| && RootsUpTo(g, m, x, |g[x].refs|) && OperandsMapped(origin, m, x, |origin[x].refs|)
    ensures NoMoreUnderWay(m0, m) && IsRefKind(Kind(g[x])) && m[x] == BTF_IN_PROGRESS_ID
    ensures RootedUpTo(origin, g, m, x, |g[x].refs|)
  {
  }

  lemma {:induction false} FrameUnmarked(g0: BtfGraph, m0: seq<nat>, g: BtfGraph, m: seq<nat>, x: nat)
    requires x < |m0| && x in Pending(m0) && RefFrameMarked(g0, m0[x := BTF_IN_PROGRESS_ID], g, m, x)
    requires Pending(m) <= Pending(m0[x := BTF_IN_PROGRESS_ID])
    ensures RefFrame(g0, m0, g, m) && Pending(m) <= Pending(m0)
    ensures NoMoreUnderWay(m0[x := BTF_IN_PROGRESS_ID], m) && m[x] != BTF_IN_PROGRESS_ID ==> NoMoreUnderWay(m0, m)
  {
    assert Pending(m0[x := BTF_IN_PROGRESS_ID]) == Pending(m0) - {x};
  }

  /** The first `n` references of `x` are resolved. */
  ghost predicate OperandState(origin: BtfGraph, g0: BtfGraph, m0: seq<nat>, g: BtfGraph, m: seq<nat>, x: nat, n: nat) {
    && RefFrameBut(g0, m0, g, m, x) && OperandsLeft(origin, g, m, x, n)
    && n <= |g[x].refs| && RootsUpTo(g, m, x, n)
    && NoMoreUnderWay(m0, m) && Pending(m) <= Pending(m0)
    && IsMapped(m, 0) && m[x] == BTF_IN_PROGRESS_ID && IsRefKind(Kind(g[x]))
  }

  lemma {:induction false} OperandStart(origin: BtfGraph, g: BtfGraph, m: seq<nat>, x: nat)
    requires 0 < |m| == |g| == |origin| && x < |g| && g[x] == origin[x] && IsMapped(m, 0)
    requires m[x] == BTF_IN_PROGRESS_ID && IsRefKind(Kind(g[x]))
    ensures OperandState(origin, g, m, g, m, x, 0)
  {
  }

  lemma {:induction false} OperandFacts(origin: BtfGraph, g0: BtfGraph, m0: seq<nat>, g: BtfGraph, m: seq<nat>,
                                        rank: seq<nat>, x: nat, n: nat)
    requires OperandState(origin, g0, m0, g, m, x, n) && UnderWayAbove(origin, m0[x := BTF_UNPROCESSED_ID], rank, x)
    ensures IsMapped(m, 0) && m[x] == BTF_IN_PROGRESS_ID && IsRefKind(Kind(g[x])) && OperandsLeft(origin, g, m, x, n)
    ensures n <= |g[x].refs| && RootsUpTo(g, m, x, n) && UnderWayAbove(origin, m[x := BTF_UNPROCESSED_ID], rank, x)
  {
    UnderWayStays(origin, m0, m, rank, x);
  }

  lemma {:induction false} OperandStep(origin: BtfGraph, g0: BtfGraph, m0: seq<nat>, g1: BtfGraph, m1: seq<nat>,
                                       g: BtfGraph, m: seq<nat>, x: nat, n: nat)
    requires OperandState(origin, g0, m0, g1, m1, x, n) && OperandState(origin, g1, m1, g, m, x, n + 1)
    ensures OperandState(origin, g0, m0, g, m, x, n + 1)
  {
    RefFrameButTrans(g0, m0, g1, m1, g, m, x);
  }

  /** One reference more: its root takes its place. */
  lemma {:induction false} OperandDone(origin: BtfGraph, g: BtfGraph, m: seq<nat>, g1: BtfGraph, m1: seq<nat>, x: nat,
                                       n: nat, v: nat)
    requires RefFrame(g, m, g1, m1) && 0 < |g| <= BTF_MAX_NR_TYPES + 1 && OperandsLeft(origin, g, m, x, n)
    requires TargetsMapped(m) && Forest(m1)
    requires n < |g[x].refs| && m[x] == BTF_IN_PROGRESS_ID && IsMapped(m, 0) && IsRefKind(Kind(g[x]))
    requires RootsUpTo(g, m, x, n) && g[x].refs[n] < |m1| && IsMapped(m1, g[x].refs[n]) && v < |m1| && m1[v] == v
    requires NoMoreUnderWay(m, m1) && Pending(m1) <= Pending(m) && v == Resolve(m1, g[x].refs[n])
    ensures x < |g1| && g1[x] == g[x] && OperandState(origin, g, m, g1[x := WithRef(g1[x], n, v)], m1, x, n + 1)
  {
    RootsStay(g, m, g1, m1, x, n);
    OperandsNext(origin, g, m, g1, m1, x, n, v);
  }

  /** Recording the representative of a reference type whose references are resolved. */
  lemma {:induction false} RefRecorded(origin: BtfGraph, g: BtfGraph, m: seq<nat>, index: iset<(u64, nat)>,
                                       cands: seq<nat>, x: nat, v: nat)
    requires TableIds(g, m, index) && RefTable(g, m, index) && RefState(origin, g, m) && |g| <= BTF_MAX_NR_TYPES + 1
    requires 0 < x < |g| && v < |g| && IsRefKind(Kind(g[x])) && !IsMapped(m, x) && (v != x ==> m[v] == v)
    requires RootsUpTo(g, m, x, |g[x].refs|) && OperandsMapped(origin, m, x, |origin[x].refs|)
    requires forall id :: id in cands <==> (RefHash(g[x]), id) in index
    requires v == x ==> forall j :: 0 <= j < |cands| ==> cands[j] < |g| && g[cands[j]] != g[x]
    requires RefsRooted(origin, g, m) && RootedUpTo(origin, g, m, x, |g[x].refs|) && g[v] == g[x]
    requires Forest(m[x := v])
    ensures TableIds(g, m[x := v], index) && RefState(origin, g, m[x := v]) && RefsRooted(origin, g, m[x := v])
    ensures |MappedIds(m)| < |MappedIds(m[x := v])|
    ensures v != x ==> RefTable(g, m[x := v], index)
    ensures v == x ==> RefTable(g, m[x := v], index + iset{(RefHash(g[x]), x)})
  {
    var m' := m[x := v];
    TableIdsFrame(g, m, g, m', index);
    RefStateAdd(origin, g, m, x, v);
    RefsRootedAdd(origin, g, m, x, v);
    MappedGrows(m, m');
    if v == x {
      RefTableAdd(g, m, index, cands, x);
    } else {
      TargetsStayMapped(m, x, v);
      RefTableFrame(g, m, g, m', index);
    }
  }

  lemma UnderWayUnmarked(g: BtfGraph, m: seq<nat>, rank: seq<nat>, x: nat)
    requires |m| == |g| && x < |g| && x in Pending(m) && UnderWayAbove(g, m, rank, x)
    ensures UnderWayAbove(g, m[x := BTF_IN_PROGRESS_ID][x := BTF_UNPROCESSED_ID], rank, x)
  {
  }

  lemma UnderWayStays(g: BtfGraph, m: seq<nat>, m': seq<nat>, rank: seq<nat>, x: nat)
    requires |m| == |g| && x < |g| && NoMoreUnderWay(m, m')
    requires UnderWayAbove(g, m[x := BTF_UNPROCESSED_ID], rank, x)
    ensures UnderWayAbove(g, m'[x := BTF_UNPROCESSED_ID], rank, x)
  {
    var was, now := m[x := BTF_UNPROCESSED_ID], m'[x := BTF_UNPROCESSED_ID];
    assert forall p :: 0 <= p < |m| && now[p] == BTF_IN_PROGRESS_ID ==> was[p] == BTF_IN_PROGRESS_ID;
  }

  /** The first `n` references of `x` are mapped and may be rewritten, the others are as they came. */
  ghost predicate OperandsLeft(origin: BtfGraph, g: BtfGraph, m: seq<nat>, x: nat, n: nat) {
    && |origin| == |g| && x < |g| && |g[x].refs| == |origin[x].refs| && OperandsMapped(origin, m, x, n)
    && RootedUpTo(origin, g, m, x, n)
    && forall j :: n <= j < |g[x].refs| ==> g[x].refs[j] == origin[x].refs[j]
  }

  lemma {:induction false} OperandsNext(origin: BtfGraph, g: BtfGraph, m: seq<nat>, g': BtfGraph, m': seq<nat>, x: nat,
                                        n: nat, v: nat)
    requires RefFrame(g, m, g', m') && |g| <= BTF_MAX_NR_TYPES + 1 && OperandsLeft(origin, g, m, x, n)
    requires n < |g[x].refs| && m[x] == BTF_IN_PROGRESS_ID && g'[x] == g[x]
    requires g[x].refs[n] < |m'| && IsMapped(m', g[x].refs[n])
    requires TargetsMapped(m) && Forest(m') && v == Resolve(m', g[x].refs[n])
    ensures OperandsLeft(origin, g'[x := WithRef(g'[x], n, v)], m', x, n + 1)
  {
    assert forall k :: 0 <= k < |m| && IsMapped(m, k) ==> k !in Pending(m);
    RootedNext(origin, g, m, WithRef(g'[x], n, v), m', x, n);
  }

  /** None of the first `n` candidates with the struct's own signature can be settled with it. */
  ghost predicate NoneFits(g: BtfGraph, m: seq<nat>, x: nat, cands: seq<nat>, n: nat, dontResolve: bool)
    requires |m| == |g| && Forest(m) && Layouts(g) && x < |g| && n <= |cands|
    requires forall j :: 0 <= j < |cands| ==> cands[j] < |g|
  {
    forall j :: 0 <= j < n && g[cands[j]].sig == g[x].sig ==> Unsettleable(g, m, x, cands[j], dontResolve)
  }

  /** What placing the struct `x` at `r` means: no struct indexed under its hash, with its signature,
      can be settled with it, or `r` is one that can. */
  ghost predicate StructPlaced(g: BtfGraph, m: seq<nat>, index: iset<(u64, nat)>, x: nat, r: nat, dontResolve: bool)
    requires |m| == |g| && Forest(m) && Layouts(g) && x < |g| && IsComposite(g[x])
  {
    if r == x then
      forall id :: (HashStruct(g[x]), id) in index && id < |g| && g[id].sig == g[x].sig ==>
        Unsettleable(g, m, x, id, dontResolve)
    else
      (HashStruct(g[x]), r) in index && r < |g| && !Unsettleable(g, m, x, r, dontResolve)
  }

  lemma {:induction false} PlacedFrom(g: BtfGraph, m: seq<nat>, index: iset<(u64, nat)>, x: nat, cands: seq<nat>,
                                      r: nat, dontResolve: bool)
    requires |m| == |g| && Forest(m) && Layouts(g) && x < |g| && IsComposite(g[x])
    requires forall j :: 0 <= j < |cands| ==> cands[j] < |g|
    requires forall id :: id in cands <==> (HashStruct(g[x]), id) in index
    requires || (r in cands && r != x && !Unsettleable(g, m, x, r, dontResolve))
             || (r == x && NoneFits(g, m, x, cands, |cands|, dontResolve))
    ensures StructPlaced(g, m, index, x, r, dontResolve)
  {
    if r == x {
      forall id | (HashStruct(g[x]), id) in index && id < |g| && g[id].sig == g[x].sig
        ensures Unsettleable(g, m, x, id, dontResolve)
      {
        assert id in cands;
        var j :| 0 <= j < |cands| && cands[j] == id;
      }
    }
  }

  /** The same without forwards to resolve, in terms of meaning: `x` is placed at a struct of its
      meaning that it is not in conflict with, or is in conflict with all indexed ones of its meaning. */
  ghost predicate PlacedByMeaning(g: BtfGraph, m: seq<nat>, index: iset<(u64, nat)>, x: nat, r: nat)
    requires WellFormed(g) && |m| == |g| && Forest(m) && Layouts(g) && x < |g| && IsComposite(g[x])
  {
    if r == x then
      forall id :: (HashStruct(g[x]), id) in index && id < |g| && Same(g, x, g, id) ==> Conflict(g, m, x, id)
    else
      (HashStruct(g[x]), r) in index && r < |g| && Same(g, x, g, r) && !Conflict(g, m, x, r)
  }

  lemma {:induction false} PlacedMeans(g: BtfGraph, m: seq<nat>, index: iset<(u64, nat)>, x: nat, r: nat)
    requires GraphOk(g) && SoundMap(g, m) && Forest(m) && PlainForwards(g) && x < |g| && IsComposite(g[x])
    requires StructPlaced(g, m, index, x, r, true)
    ensures PlacedByMeaning(g, m, index, x, r)
  {
    if r == x {
      forall id | (HashStruct(g[x]), id) in index && id < |g| && Same(g, x, g, id) ensures Conflict(g, m, x, id) {
        SameLabel(g, x, g, id);
        RefusedIff(g, m, x, id);
      }
    } else {
      RefusedIff(g, m, x, r);
    }
  }

  /** No id but `x` has become its own representative. */
  ghost predicate NoNewSelf(m: seq<nat>, m': seq<nat>, x: nat) {
    |m| == |m'| && forall i :: 0 < i < |m| && i != x && m'[i] == i ==> m[i] == i
  }

  /** Canonical structs and unions are in the table under their hash. */
  ghost predicate StructIndexed(g: BtfGraph, m: seq<nat>, index: iset<(u64, nat)>) {
    && |m| == |g| && Layouts(g)
    && forall i :: 0 < i < |g| && IsComposite(g[i]) && m[i] == i ==> (HashStruct(g[i]), i) in index
  }

  lemma {:induction false} StructIndexedStep(g: BtfGraph, m: seq<nat>, m': seq<nat>, index: iset<(u64, nat)>, x: nat)
    requires StructIndexed(g, m, index) && NoNewSelf(m, m', x) && 0 < x < |g| && IsComposite(g[x])
    ensures m'[x] != x ==> StructIndexed(g, m', index)
    ensures StructIndexed(g, m', index + iset{(HashStruct(g[x]), x)})
  {
  }

  /** Structs and unions from `n` on are not their own representatives. */
  ghost predicate NoSelfFrom(g: BtfGraph, m: seq<nat>, n: nat) {
    |m| == |g| && forall i :: n <= i < |g| && IsComposite(g[i]) ==> m[i] != i
  }

  lemma NoSelfNext(g: BtfGraph, m: seq<nat>, m': seq<nat>, n: nat)
    requires NoSelfFrom(g, m, n) && NoNewSelf(m, m', n) && 0 < n
    ensures NoSelfFrom(g, m', n + 1)
  {
  }

  /** Canonical structs of equal meaning are in conflict, the later with the earlier. */
  ghost predicate StructsApart(g: BtfGraph, m: seq<nat>, n: nat)
    requires WellFormed(g)
  {
    n <= |g| == |m| && forall i, j :: 0 < i < j < n ==> StructPairApart(g, m, i, j)
  }

  ghost predicate StructPairApart(g: BtfGraph, m: seq<nat>, i: nat, j: nat)
    requires WellFormed(g) && |m| == |g| && i < |g| && j < |g|
  {
    IsComposite(g[i]) && IsComposite(g[j]) && m[i] == i && m[j] == j && Same(g, j, g, i) ==> OwnConflict(g, j, i)
  }

  lemma {:induction false} StructsApartStep(g: BtfGraph, m: seq<nat>, m': seq<nat>, index: iset<(u64, nat)>, x: nat)
    requires GraphOk(g) && Forest(m) && StructsApart(g, m, x) && StructIndexed(g, m, index) && NoSelfFrom(g, m, x)
    requires CanonGrows(g, m, m') && NoNewSelf(m, m', x) && 0 < x < |g|
    requires IsComposite(g[x]) && !IsMapped(m, x) ==> PlacedByMeaning(g, m, index, x, m'[x])
    ensures StructsApart(g, m', x + 1)
  {
    forall i, j | 0 < i < j < x + 1 ensures StructPairApart(g, m', i, j) {
      if j < x {
        assert StructPairApart(g, m, i, j);
      } else {
        LastStructApart(g, m, m', index, x, i);
      }
    }
  }

  lemma {:induction false} LastStructApart(g: BtfGraph, m: seq<nat>, m': seq<nat>, index: iset<(u64, nat)>, x: nat,
                                           i: nat)
    requires GraphOk(g) && Forest(m) && StructIndexed(g, m, index) && NoSelfFrom(g, m, x)
    requires CanonGrows(g, m, m') && NoNewSelf(m, m', x) && 0 < i < x < |g|
    requires IsComposite(g[x]) && !IsMapped(m, x) ==> PlacedByMeaning(g, m, index, x, m'[x])
    ensures StructPairApart(g, m', i, x)
  {
    if IsComposite(g[i]) && IsComposite(g[x]) && m'[i] == i && m'[x] == x && Same(g, x, g, i) {
      assert CanonGrowsAt(g, m, m', x);
      SameLabel(g, x, g, i);
      assert HashStruct(g[i]) == HashStruct(g[x]);
      ConflictIsOwn(g, m, x, i);
    }
  }

  lemma NoneFitsNext(g: BtfGraph, m: seq<nat>, x: nat, cands: seq<nat>, n: nat, dontResolve: bool)
    requires |m| == |g| && Forest(m) && Layouts(g) && x < |g| && n < |cands|
    requires forall j :: 0 <= j < |cands| ==> cands[j] < |g|
    requires NoneFits(g, m, x, cands, n, dontResolve)
    requires g[cands[n]].sig == g[x].sig ==> Unsettleable(g, m, x, cands[n], dontResolve)
    ensures NoneFits(g, m, x, cands, n + 1, dontResolve)
  {
  }

  ghost predicate AllMapped(m: seq<nat>) {
    forall k :: 0 <= k < |m| ==> IsMapped(m, k)
  }

  /** How many of the ids 1 .. n-1 are their own representatives. */
  ghost function SelfCount(m: seq<nat>, n: nat): (c: nat)
    requires n <= |m|
  {
    if n <= 1 then 0 else SelfCount(m, n - 1) + if m[n - 1] == n - 1 then 1 else 0
  }

  /** The id a type has after compaction: self-mapped types are numbered 1, 2, ... in order. */
  ghost function NewIdOf(m: seq<nat>, i: nat): nat
    requires i < |m|
  {
    if i == 0 then 0 else if m[i] == i then 1 + SelfCount(m, i) else BTF_UNPROCESSED_ID
  }

  ghost function NewIds(m: seq<nat>): (r: seq<nat>)
    ensures |r| == |m| && forall i :: 0 <= i < |m| ==> r[i] == NewIdOf(m, i)
  {
    seq(|m|, i requires 0 <= i < |m| => NewIdOf(m, i))
  }

  /** The final id of an original id: its representative's number after compaction. */
  ghost function FinalId(m: seq<nat>, id: nat): nat
    requires Forest(m) && id < |m|
  {
    NewIdOf(m, Resolve(m, id))
  }

  lemma {:induction false} SelfCountBounds(m: seq<nat>, a: nat, b: nat)
    requires a <= b <= |m|
    ensures SelfCount(m, a) <= SelfCount(m, b) && (b > 0 ==> SelfCount(m, b) < b)
    ensures a < b && 0 < a && m[a] == a ==> SelfCount(m, a) < SelfCount(m, b)
    decreases b
  {
    if a < b { SelfCountBounds(m, a, b - 1); } else if b > 0 { SelfCountBounds(m, a - 1, b - 1); }
  }

  lemma NewIdsIncrease(m: seq<nat>, i: nat)
    requires 0 < i < |m| <= BTF_MAX_NR_TYPES + 1 && m[i] == i
    ensures 0 < NewIdOf(m, i) <= i
    ensures forall k :: 0 < k < i && m[k] == k ==> NewIdOf(m, k) < NewIdOf(m, i)
  {
    SelfCountBounds(m, i, i);
    forall k | 0 < k < i && m[k] == k ensures NewIdOf(m, k) < NewIdOf(m, i) {
      SelfCountBounds(m, k, i);
    }
  }

  lemma NewIdsBounded(m: seq<nat>)
    requires |m| <= BTF_MAX_NR_TYPES + 1
    ensures forall k :: 0 < k < |m| && m[k] == k ==> 0 < NewIdOf(m, k) <= SelfCount(m, |m|) < |m|
  {
    forall k | 0 < k < |m| && m[k] == k ensures 0 < NewIdOf(m, k) <= SelfCount(m, |m|) < |m| {
      SelfCountBounds(m, k, |m|);
    }
  }

  /** Compaction numbers the self-mapped types without gaps: every new id belongs to exactly one. */
  lemma {:induction false} NewIdsOnto(m: seq<nat>, n: nat, c: nat) returns (k: nat)
    requires n <= |m| && 0 < c <= SelfCount(m, n)
    ensures 0 < k < n && m[k] == k && NewIdOf(m, k) == c
    decreases n
  {
    if c <= SelfCount(m, n - 1) {
      k := NewIdsOnto(m, n - 1, c);
    } else {
      k := n - 1;
    }
  }

  /** Half-way through compaction: `i` ids examined, the next free slot is `next`. */
  ghost predicate CompactInv(g0: BtfGraph, m: seq<nat>, g: BtfGraph, ids: seq<nat>, i: nat, next: nat) {
    && 1 <= i <= |g0| == |g| == |m| == |ids| && next == 1 + SelfCount(m, i) <= i
    && (forall k :: 0 <= k < |m| ==> ids[k] == if k < i then NewIdOf(m, k) else BTF_UNPROCESSED_ID)
    && g[0] == g0[0] && (forall k :: i <= k < |g| ==> g[k] == g0[k])
    && (forall k :: 0 < k < i && m[k] == k ==> 0 < NewIdOf(m, k) < next && g[NewIdOf(m, k)] == g0[k])
  }

  /** One step of compaction: the slot overwritten was already copied, or is the one being copied. */
  lemma {:induction false} CompactStep(g0: BtfGraph, m: seq<nat>, g: BtfGraph, ids: seq<nat>, i: nat, next: nat)
    requires CompactInv(g0, m, g, ids, i, next) && i < |m| <= BTF_MAX_NR_TYPES + 1
    ensures m[i] == i ==> CompactInv(g0, m, g[next := g[i]], ids[i := next], i + 1, next + 1)
    ensures m[i] != i ==> CompactInv(g0, m, g, ids, i + 1, next)
  {
    if m[i] == i { NewIdsIncrease(m, i); }
  }

  lemma CompactEnd(g0: BtfGraph, m: seq<nat>, g: BtfGraph, ids: seq<nat>, next: nat)
    requires CompactInv(g0, m, g, ids, |m|, next)
    ensures next <= |g| && Compacted(g0, m, g[..next])
    ensures ids == NewIds(m)
  {
  }

  lemma CompactStart(g: BtfGraph, m: seq<nat>, ids: seq<nat>)
    requires 0 < |g| == |m| == |ids|
    requires forall k :: 0 <= k < |ids| ==> ids[k] == if k == 0 then 0 else BTF_UNPROCESSED_ID
    ensures CompactInv(g, m, g, ids, 1, 1)
  {
  }

  /** `h` holds `void` and then exactly the self-mapped descriptors of `g`, at their new ids. */
  ghost predicate Compacted(g: BtfGraph, m: seq<nat>, h: BtfGraph) {
    && 0 < |g| == |m| && |h| == 1 + SelfCount(m, |m|)
    && h[0] == g[0]
    && forall k :: 0 < k < |m| && m[k] == k ==> NewIdOf(m, k) < |h| && h[NewIdOf(m, k)] == g[k]
  }

  lemma CompactedRefs(g: BtfGraph, m: seq<nat>, h: BtfGraph)
    requires GraphOk(g) && Compacted(g, m, h)
    requires NoUnknown(g)
    ensures h[0].refs == []
    ensures forall i :: 0 < i < |h| ==> Kind(h[i]) != KIND_UNKN
    ensures forall i, j :: 0 <= i < |h| && 0 <= j < |h[i].refs| ==> h[i].refs[j] < |m|
  {
    forall i | 0 < i < |h|
      ensures Kind(h[i]) != KIND_UNKN && forall j :: 0 <= j < |h[i].refs| ==> h[i].refs[j] < |m|
    {
      var k := NewIdsOnto(m, |m|, i);
      assert h[i] == g[k];
    }
    assert Layout(g[0]);
  }

  lemma FinalIdBounded(m: seq<nat>, id: nat)
    requires Forest(m) && AllMapped(m) && id < |m| <= BTF_MAX_NR_TYPES + 1
    ensures FinalId(m, id) <= SelfCount(m, |m|)
    ensures var r := Resolve(m, id); r == 0 || (m[r] == r && FinalId(m, id) == 1 + SelfCount(m, r))
  {
    var r := Resolve(m, id);
    assert IsMapped(m, r) && !IsLink(m, r);
    NewIdsBounded(m);
  }

  lemma RemappedWellFormed(g: BtfGraph, m: seq<nat>, h: BtfGraph, f: BtfGraph)
    requires GraphOk(g) && Compacted(g, m, h) && Forest(m) && AllMapped(m) && |f| == |h|
    requires forall i, j :: 0 <= i < |h| && 0 <= j < |h[i].refs| ==> h[i].refs[j] < |m|
    requires forall i :: 0 <= i < |h| ==> f[i] == RemappedNode(m, h[i])
    ensures WellFormed(f)
    ensures forall id :: 0 <= id < |g| ==> FinalId(m, id) < |f|
  {
    forall id | 0 <= id < |g| ensures FinalId(m, id) < |f| { FinalIdBounded(m, id); }
    forall i, j | 0 <= i < |f| && 0 <= j < |f[i].refs| ensures f[i].refs[j] < |f| {
      assert f[i].refs[j] == FinalId(m, h[i].refs[j]);
    }
  }

  lemma RemappedAt(g: BtfGraph, m: seq<nat>, h: BtfGraph, f: BtfGraph, id: nat)
    requires GraphOk(g) && Compacted(g, m, h) && Forest(m) && AllMapped(m) && |f| == |h| && id < |g|
    requires forall i, j :: 0 <= i < |h| && 0 <= j < |h[i].refs| ==> h[i].refs[j] < |m|
    requires forall i :: 0 <= i < |h| ==> f[i] == RemappedNode(m, h[i])
    ensures FinalId(m, id) < |f| && f[FinalId(m, id)] == RemappedNode(m, g[Resolve(m, id)])
  {
    FinalIdBounded(m, id);
    assert h[FinalId(m, id)] == g[Resolve(m, id)];
  }

  /** The remapped compact graph is a quotient of the graph the reference pass left, so every type
      keeps its meaning. */
  lemma {:induction false} RemapKeepsMeaning(g: BtfGraph, m: seq<nat>, h: BtfGraph, f: BtfGraph)
    requires GraphOk(g) && Compacted(g, m, h) && Forest(m) && AllMapped(m)
    requires |f| == |h| && WellFormed(f) && SoundMap(g, m)
    requires forall i, j :: 0 <= i < |h| && 0 <= j < |h[i].refs| ==> h[i].refs[j] < |m|
    requires forall i :: 0 <= i < |h| ==> f[i] == RemappedNode(m, h[i])
    ensures forall id :: 0 <= id < |g| ==> FinalId(m, id) < |f| && Same(g, id, f, FinalId(m, id))
  {
    var rep := seq(|g|, id requires 0 <= id < |g| => Resolve(m, id));
    var fin := seq(|g|, id requires 0 <= id < |g| => FinalId(m, id));
    forall id | 0 <= id < |g| ensures QuotientAt(g, f, rep, fin, id) {
      SoundResolve(g, m, id);
      RemappedAt(g, m, h, f, id);
    }
    assert Quotient(g, f, rep, fin);
    QuotientSound(g, f, rep, fin);
    forall id | 0 <= id < |g| ensures FinalId(m, id) < |f| && Same(g, id, f, FinalId(m, id)) {
      assert Same(g, id, f, fin[id]);
    }
  }

  /** The same, told of the graph the passes started from. */
  lemma MeaningFromOrigin(origin: BtfGraph, g: BtfGraph, m: seq<nat>, f: BtfGraph)
    requires SameGraph(origin, g) && WellFormed(f) && Forest(m) && |m| == |g|
    requires forall id :: 0 <= id < |g| ==> FinalId(m, id) < |f| && Same(g, id, f, FinalId(m, id))
    ensures forall id :: 0 <= id < |origin| ==> FinalId(m, id) < |f| && Same(origin, id, f, FinalId(m, id))
  {
    forall id | 0 <= id < |origin| ensures FinalId(m, id) < |f| && Same(origin, id, f, FinalId(m, id)) {
      assert Same(origin, id, g, id);
      SameTrans(origin, id, g, id, f, FinalId(m, id));
    }
  }

  /** Different canonical primitives have different descriptors, and every primitive is mapped. */
  ghost predicate PrimsDistinct(g: BtfGraph, m: seq<nat>) {
    && |m| == |g|
    && (forall i :: 0 < i < |g| && IsPrim(g[i]) ==> IsMapped(m, i))
    && (forall i, j :: 0 < i < j < |g| && IsPrim(g[i]) && m[i] == i && m[j] == j ==> g[i] != g[j])
  }

  /** The kinds of which equal types are merged; `fwds` says whether forwards count. */
  predicate MergedKind(k: nat, fwds: bool) {
    k == KIND_INT || k == KIND_ENUM || IsRefKind(k) || (fwds && k == KIND_FWD)
  }

  /** No two INTs, no two ENUMs, no two reference types and no two forwards of the graph are equal. */
  ghost predicate Irredundant(f: BtfGraph, fwds: bool) {
    forall i, j :: 0 < i < j < |f| && MergedKind(Kind(f[i]), fwds) ==> f[i] != f[j]
  }

  ghost predicate SameSignatures(origin: BtfGraph, g: BtfGraph) {
    |origin| == |g| && forall k :: 0 <= k < |g| ==> g[k].sig == origin[k].sig
  }

  /** Every type of `f` has the signature of some type of `origin`. */
  ghost predicate SignaturesFrom(f: BtfGraph, origin: BtfGraph) {
    forall i :: 0 < i < |f| ==> SignatureFrom(f[i], origin)
  }

  ghost predicate SignatureFrom(t: BtfType, origin: BtfGraph) {
    exists k :: 0 < k < |origin| && t.sig == origin[k].sig
  }

  lemma {:induction false} CompactedSignatures(origin: BtfGraph, g: BtfGraph, m: seq<nat>, h: BtfGraph, f: BtfGraph)
    requires Compacted(g, m, h) && Forest(m) && |f| == |h| && SameSignatures(origin, g)
    requires forall i, j :: 0 <= i < |h| && 0 <= j < |h[i].refs| ==> h[i].refs[j] < |m|
    requires forall i :: 0 <= i < |h| ==> f[i] == RemappedNode(m, h[i])
    ensures SignaturesFrom(f, origin)
  {
    forall i | 0 < i < |f| ensures SignatureFrom(f[i], origin) {
      var k := NewIdsOnto(m, |m|, i);
      assert f[i].sig == h[i].sig == g[k].sig == origin[k].sig;
    }
  }

  /** Every type becomes one that may take its place. */
  ghost predicate ShapesKept(origin: BtfGraph, m: seq<nat>, f: BtfGraph)
    requires Forest(m)
  {
    |m| == |origin| && forall id :: 0 <= id < |origin| ==>
      FinalId(m, id) < |f| && Represents(origin, origin[id].sig, f[FinalId(m, id)].sig)
  }

  lemma {:induction false} KeepShapes(origin: BtfGraph, g: BtfGraph, m: seq<nat>, h: BtfGraph, f: BtfGraph)
    requires GraphOk(g) && Compacted(g, m, h) && Forest(m) && AllMapped(m) && |f| == |h|
    requires forall i, j :: 0 <= i < |h| && 0 <= j < |h[i].refs| ==> h[i].refs[j] < |m|
    requires forall i :: 0 <= i < |h| ==> f[i] == RemappedNode(m, h[i])
    requires SameSignatures(origin, g) && Links(g, m)
    ensures ShapesKept(origin, m, f) && FinalSignatures(origin, m, f)
  {
    LinksRewritten(g, origin, m);
    forall id | 0 <= id < |origin|
      ensures FinalId(m, id) < |f| && f[FinalId(m, id)].sig == origin[Resolve(m, id)].sig
      ensures Represents(origin, origin[id].sig, f[FinalId(m, id)].sig)
    {
      RemappedAt(g, m, h, f, id);
      ResolveRepresents(origin, m, id);
    }
  }

  /** Every type becomes one of the signature of its root. */
  ghost predicate FinalSignatures(origin: BtfGraph, m: seq<nat>, f: BtfGraph)
    requires Forest(m)
  {
    |m| == |origin| && forall id :: 0 <= id < |origin| ==>
      FinalId(m, id) < |f| && f[FinalId(m, id)].sig == origin[Resolve(m, id)].sig
  }

  /** The references of what `id` becomes are what those of `x` become. */
  ghost predicate RefersAlike(origin: BtfGraph, m: seq<nat>, f: BtfGraph, id: nat, x: nat)
    requires Forest(m) && |m| == |origin| && id < |m| && x < |m|
  {
    && FinalId(m, id) < |f| && |f[FinalId(m, id)].refs| == |origin[x].refs|
    && forall j :: 0 <= j < |origin[x].refs| ==>
         origin[x].refs[j] < |m| && f[FinalId(m, id)].refs[j] == FinalId(m, origin[x].refs[j])
  }

  /** Every type refers to what its root referred to, and reference types to what they did themselves. */
  ghost predicate FinalReferences(origin: BtfGraph, m: seq<nat>, f: BtfGraph)
    requires Forest(m)
  {
    |m| == |origin| && forall id :: 0 <= id < |origin| ==>
      RefersAlike(origin, m, f, id, Resolve(m, id))
      && (IsRefKind(Kind(origin[id])) ==> RefersAlike(origin, m, f, id, id))
  }

  lemma {:induction false} FinalReferencesHold(origin: BtfGraph, g: BtfGraph, m: seq<nat>, h: BtfGraph, f: BtfGraph)
    requires GraphOk(origin) && GraphOk(g) && Compacted(g, m, h) && Forest(m) && AllMapped(m) && |f| == |h|
    requires forall i, j :: 0 <= i < |h| && 0 <= j < |h[i].refs| ==> h[i].refs[j] < |m|
    requires forall i :: 0 <= i < |h| ==> f[i] == RemappedNode(m, h[i])
    requires SameSignatures(origin, g) && RefsRooted(origin, g, m)
    requires forall k :: 0 <= k < |g| && !IsRefKind(Kind(g[k])) ==> g[k] == origin[k]
    ensures FinalReferences(origin, m, f)
  {
    forall id | 0 <= id < |origin|
      ensures RefersAlike(origin, m, f, id, Resolve(m, id))
      ensures IsRefKind(Kind(origin[id])) ==> RefersAlike(origin, m, f, id, id)
    {
      RemappedAt(g, m, h, f, id);
      RootRefers(origin, g, m, f, id, Resolve(m, id));
      if IsRefKind(Kind(origin[id])) {
        assert Rooted(origin, g, m, id);
        LinkedRoot(m, id, m[id]);
        RootRefers(origin, g, m, f, id, id);
      }
    }
  }

  /** Types left as they came, or with each reference rewritten to its root. */
  lemma {:induction false} RootRefers(origin: BtfGraph, g: BtfGraph, m: seq<nat>, f: BtfGraph, id: nat, x: nat)
    requires GraphOk(origin) && GraphOk(g) && |g| == |m| == |origin| && Forest(m) && AllMapped(m)
    requires RefsRooted(origin, g, m) && SameSignatures(origin, g) && id < |g| && x < |g|
    requires g[x] == origin[x] || IsRefKind(Kind(g[x]))
    requires FinalId(m, id) < |f| && f[FinalId(m, id)] == RemappedNode(m, g[x])
    ensures RefersAlike(origin, m, f, id, x)
  {
    assert Rooted(origin, g, m, x);
    forall j | 0 <= j < |g[x].refs|
      ensures |g[x].refs| == |origin[x].refs| && origin[x].refs[j] < |m|
      ensures FinalId(m, g[x].refs[j]) == FinalId(m, origin[x].refs[j])
    {
      if IsRefKind(Kind(g[x])) {
        assert LeadsTo(m, origin[x].refs[j], g[x].refs[j]);
        ResolveStep(m, g[x].refs[j]);
      }
    }
  }

  /** A failure of the passes after the string pass. */
  ghost predicate PassBlamed(g: BtfGraph, memory: bool, err: int)
    requires WellFormed(g)
  {
    err < 0 ==>
      || (err == ENOMEM && !memory)
      || (err == EINVAL && (!NoUnknown(g) || !ProperRefs(g)))
      || (err == ELOOP && !RefsAcyclic(g))
  }

  /** What the reference pass starts from, and what it leaves behind. */
  ghost predicate RefStartOk(g: BtfGraph, m: seq<nat>) {
    0 < |m| == |g| && IsMapped(m, 0) && TargetsMapped(m) && NoRefMapped(g, m) && OnlyRefsLeft(g, m)
  }

  ghost predicate RefEndOk(origin: BtfGraph, m0: seq<nat>, g: BtfGraph, m: seq<nat>) {
    && RefFrame(origin, m0, g, m) && AllMapped(m) && RefsAcyclic(origin) && RefsRooted(origin, g, m)
    && RefsDistinct(g, m) && RefsResolved(g, m) && RefRanked(g, m)
  }

  /** The state of the reference pass before type `n`. */
  ghost predicate RefProgress(g0: BtfGraph, m0: seq<nat>, g: BtfGraph, m: seq<nat>, n: nat) {
    RefFrame(g0, m0, g, m) && MappedUpTo(m, n) && Pending(m) <= Pending(m0) && NoMoreUnderWay(m0, m)
  }

  lemma {:induction false} RefProgressFacts(g0: BtfGraph, m0: seq<nat>, g: BtfGraph, m: seq<nat>, rank: seq<nat>,
                                            n: nat)
    requires RefStartOk(g0, m0) && RefProgress(g0, m0, g, m, n) && 0 < n < |m|
    ensures IsMapped(m, 0) && UnderWayAbove(g0, m, rank, n)
  {
  }

  lemma {:induction false} RefProgressStep(g0: BtfGraph, m0: seq<nat>, g1: BtfGraph, m1: seq<nat>, g: BtfGraph,
                                           m: seq<nat>, n: nat)
    requires RefProgress(g0, m0, g1, m1, n) && n < |m| && RefFrame(g1, m1, g, m) && IsMapped(m, n)
    requires Pending(m) <= Pending(m1) && NoMoreUnderWay(m1, m)
    ensures RefProgress(g0, m0, g, m, n + 1)
  {
    RefFrameTrans(g0, m0, g1, m1, g, m);
    MappedStays(g1, m1, g, m, n);
  }

  /** What the primitive and the struct pass leave behind. */
  ghost predicate StructFacts(g: BtfGraph, m: seq<nat>, exact: bool, dontResolve: bool)
    requires WellFormed(g) && Layouts(g)
  {
    && RefStartOk(g, m) && NoUnknown(g) && PrimsDistinct(g, m) && StructsMapped(g, m, |g|)
    && Partnered(g, m) && StructsRefused(g, m, |g|, exact) && (dontResolve || EnumsResolved(g, m, |g|))
    && (exact && PlainForwards(g) ==> StructsApart(g, m, |g|))
  }

  /** What the mapping passes leave behind. */
  ghost predicate MapFacts(origin: BtfGraph, g: BtfGraph, m: seq<nat>, exact: bool, dontResolve: bool) {
    && GraphOk(origin) && |m| == |g| == |origin| && Forest(m) && AllMapped(m)
    && NoUnknown(origin) && NoUnknown(g) && SameSignatures(origin, g)
    && PrimsDistinct(g, m) && RefsDistinct(g, m) && RefsResolved(g, m)
    && RefsAcyclic(origin) && (PlainForwards(origin) ==> PlainForwards(g))
    && RefsRooted(origin, g, m) && (forall k :: 0 <= k < |g| && !IsRefKind(Kind(g[k])) ==> g[k] == origin[k])
    && Partnered(origin, m) && StructsRefused(origin, m, |origin|, exact)
    && (dontResolve || EnumsFollow(origin, m))
    && (exact && PlainForwards(origin) ==> StructsJoin(origin, m))
    && (exact && PlainForwards(origin) && NoVariables(origin) && ConflictFree(origin) ==> OneIdPerMeaning(origin, m))
  }

  lemma {:induction false} MapFactsHold(origin: BtfGraph, m0: seq<nat>, g: BtfGraph, m: seq<nat>, exact: bool,
                                        dontResolve: bool)
    requires GraphOk(origin) && GraphOk(g) && Forest(m0) && Forest(m) && StructFacts(origin, m0, exact, dontResolve)
    requires RefEndOk(origin, m0, g, m) && Links(g, m)
    requires exact ==> SameGraph(origin, g) && SoundMap(origin, m)
    ensures MapFacts(origin, g, m, exact, dontResolve)
  {
    NoUnknownFrame(origin, m0, g, m);
    PrimsDistinctFrame(origin, m0, g, m);
    RefsKeepStructs(origin, m0, g, m, exact, dontResolve);
    if exact && PlainForwards(origin) {
      assert forall k :: 0 < k < |m| && IsMapped(m0, k) ==> k !in Pending(m0);
      OneIdFacts(origin, m0, g, m);
    }
  }

  /** No struct or union is a link after the primitive pass. */
  lemma {:induction false} PrimStructs(g: BtfGraph, m: seq<nat>)
    requires GraphOk(g) && PrimProgress(g, m, |g|) && Forest(m)
    ensures StructLinks(g, m) && Partnered(g, m)
  {
    forall i | 0 <= i < |g| ensures PartneredAt(g, m, i) && (IsComposite(g[i]) ==> !IsLink(m, i)) {
      assert IsComposite(g[i]) ==> !IsPrim(g[i]);
    }
  }

  lemma {:induction false} StructLeft(g: BtfGraph, m1: seq<nat>, m: seq<nat>)
    requires GraphOk(g) && PrimProgress(g, m1, |g|) && CanonGrows(g, m1, m) && StructsMapped(g, m, |g|)
    requires NoUnknown(g) && IsMapped(m1, 0)
    ensures OnlyRefsLeft(g, m)
  {
    forall k | 0 <= k < |g| ensures (IsMapped(m, k) <==> !IsRefKind(Kind(g[k]))) && m[k] != BTF_IN_PROGRESS_ID {
      assert CanonGrowsAt(g, m1, m, k);
      assert Layout(g[k]);
    }
  }

  /** Redirected forward enums stay redirected. */
  lemma {:induction false} EnumsStay(g: BtfGraph, m: seq<nat>, m': seq<nat>)
    requires PrimProgress(g, m, |g|) && EnumsResolved(g, m, |g|) && CanonGrows(g, m, m') && |g| <= BTF_MAX_NR_TYPES + 1
    ensures EnumsResolved(g, m', |g|)
  {
    forall i, j | 0 < i < |g| && 0 < j < |g| ensures EnumResolved(g, m', i, j) {
      assert EnumResolved(g, m, i, j) && CanonGrowsAt(g, m, m', i);
    }
  }

  /** A forward enum becomes an enum it stands for, if there is one. */
  ghost predicate EnumsFollow(g: BtfGraph, m: seq<nat>) {
    |m| == |g| && Forest(m) && forall i, j :: 0 <= i < |g| && 0 <= j < |g| ==> EnumFollows(g, m, i, j)
  }

  ghost predicate EnumFollows(g: BtfGraph, m: seq<nat>, i: nat, j: nat)
    requires |m| == |g| && Forest(m) && i < |g| && j < |g|
  {
    IsEnum(g[i]) && StandsFor(g[i].sig, g[j].sig) ==> StandsFor(g[i].sig, g[Resolve(m, i)].sig)
  }

  lemma {:induction false} EnumsFollowed(g: BtfGraph, m: seq<nat>)
    requires GraphOk(g) && Forest(m) && Links(g, m) && AllMapped(m) && EnumsResolved(g, m, |g|)
    ensures EnumsFollow(g, m)
  {
    forall i, j | 0 <= i < |g| && 0 <= j < |g| ensures EnumFollows(g, m, i, j) {
      if IsEnum(g[i]) && StandsFor(g[i].sig, g[j].sig) {
        StandsCompat(g[i], g[j]);
        ResolveRepresents(g, m, i);
        var r := Resolve(m, i);
        assert m[r] == r;
        if r != 0 { assert EnumResolved(g, m, r, j); }
      }
    }
  }

  /** Nothing comes apart in the reference pass. */
  lemma {:induction false} RefsAdvance(g: BtfGraph, m: seq<nat>, r: seq<nat>)
    requires |m| == |r| == |g| <= BTF_MAX_NR_TYPES + 1 && Forest(m) && Forest(r) && TargetsMapped(m)
    requires OnlyRefsLeft(g, m) && AllMapped(r) && Links(g, r)
    requires forall k :: 0 <= k < |m| && IsMapped(m, k) ==> r[k] == m[k]
    ensures Advances(g, m, r)
  {
    forall a | 0 <= a < |g| ensures StaysResolved(g, m, r, a) {
      if IsMapped(m, a) {
        ResolveKept(m, r, a);
      } else {
        ResolveRepresents(g, r, a);
        InfoSplit(g[a].sig.info);
      }
    }
    forall a, b | 0 <= a < |g| && 0 <= b < |g| ensures JoinStays(m, r, a, b) { JoinKept(m, r, a, b); }
  }

  lemma {:induction false} JoinKept(m: seq<nat>, r: seq<nat>, a: nat, b: nat)
    requires Forest(m) && TargetsMapped(m) && Forest(r) && |r| == |m| && a < |m| && b < |m|
    requires forall k :: 0 <= k < |m| && IsMapped(m, k) ==> r[k] == m[k]
    ensures JoinStays(m, r, a, b)
  {
    ResolveStep(m, a);
    ResolveStep(m, b);
    if IsMapped(m, a) { ResolveKept(m, r, a); }
    if IsMapped(m, b) { ResolveKept(m, r, b); }
  }

  /** What the struct pass established holds at the end of the reference pass. */
  lemma {:induction false} RefsKeepStructs(origin: BtfGraph, m: seq<nat>, g: BtfGraph, r: seq<nat>, exact: bool,
                                           dontResolve: bool)
    requires GraphOk(origin) && Forest(m) && Forest(r) && StructFacts(origin, m, exact, dontResolve)
    requires RefFrame(origin, m, g, r) && AllMapped(r) && Links(g, r)
    ensures Partnered(origin, r) && StructsRefused(origin, r, |origin|, exact)
    ensures !dontResolve ==> EnumsFollow(origin, r)
  {
    LinksRewritten(g, origin, r);
    assert forall k :: 0 <= k < |m| && IsMapped(m, k) ==> k !in Pending(m);
    RefsAdvance(origin, m, r);
    forall x | 0 <= x < |origin| ensures PartneredAt(origin, r, x) {
      assert PartneredAt(origin, m, x);
      if IsComposite(origin[x]) && HasPartner(origin, m, x) { PartnerStays(origin, m, r, x); }
    }
    forall i, j | 0 < i < j < |origin| ensures PairRefused(origin, r, i, j, exact) {
      assert PairRefused(origin, m, i, j, exact);
      if WasRefused(origin, m, i, j, exact) { StaysRefused(origin, m, r, i, j, exact); }
    }
    if !dontResolve {
      forall i, j | 0 < i < |origin| && 0 < j < |origin| ensures EnumResolved(origin, r, i, j) {
        assert EnumResolved(origin, m, i, j);
      }
      EnumsFollowed(origin, r);
    }
  }

  /** What the struct pass leaves for the reference pass: links lead to mapped ids, reference types
      are not mapped yet, and canonical primitives differ. */
  lemma {:induction false} StructEnd(g: BtfGraph, m1: seq<nat>, m: seq<nat>)
    requires GraphOk(g) && PrimProgress(g, m1, |g|) && Links(g, m) && CanonGrows(g, m1, m)
    requires StructsMapped(g, m, |g|)
    requires NoRefMapped(g, m1) && IsMapped(m1, 0)
    ensures TargetsMapped(m) && NoRefMapped(g, m) && PrimsDistinct(g, m) && IsMapped(m, 0)
  {
    assert CanonGrowsAt(g, m1, m, 0);
    forall i | 0 <= i < |m| ensures TargetMapped(m, i) {
      StructEndAt(g, m1, m, i);
      if IsLink(m, i) {
        assert LinkAt(g, m, i);
        SameClass(g, i, m[i]);
        StructEndAt(g, m1, m, m[i]);
      }
    }
    forall i | 0 <= i < |g| && IsRefKind(Kind(g[i])) ensures !IsMapped(m, i) { assert CanonGrowsAt(g, m1, m, i); }
    StructEndPrims(g, m1, m);
  }

  lemma {:induction false} StructEndPrims(g: BtfGraph, m1: seq<nat>, m: seq<nat>)
    requires PrimProgress(g, m1, |g|) && CanonGrows(g, m1, m)
    ensures PrimsDistinct(g, m)
  {
    forall i | 0 < i < |g| && IsPrim(g[i]) ensures IsMapped(m, i) && (m[i] == i ==> m1[i] == i) {
      assert IsMapped(m1, i) && CanonGrowsAt(g, m1, m, i);
    }
  }

  /** Which ids are mapped after the struct pass, and which may be links. */
  lemma {:induction false} StructEndAt(g: BtfGraph, m1: seq<nat>, m: seq<nat>, i: nat)
    requires GraphOk(g) && PrimProgress(g, m1, |g|) && CanonGrows(g, m1, m) && NoRefMapped(g, m1) && i < |g|
    requires StructsMapped(g, m, |g|)
    ensures IsPrim(g[i]) || IsComposite(g[i]) ==> IsMapped(m, i)
    ensures IsLink(m, i) ==> IsPrim(g[i]) || IsComposite(g[i])
  {
    assert CanonGrowsAt(g, m1, m, i);
  }

  lemma PrimsDistinctFrame(g0: BtfGraph, m0: seq<nat>, g: BtfGraph, m: seq<nat>)
    requires GraphOk(g0) && PrimsDistinct(g0, m0) && RefFrame(g0, m0, g, m)
    ensures PrimsDistinct(g, m)
    ensures PlainForwards(g0) ==> PlainForwards(g)
  {
    forall i | 0 < i < |g| && IsPrim(g[i]) ensures g[i] == g0[i] && m[i] == m0[i] {
      assert IsPrim(g0[i]) && IsMapped(m0, i);
    }
    if PlainForwards(g0) {
      forall i | 0 <= i < |g| && IsFwd(g[i]) ensures g[i].refs == [0] { assert IsFwd(g0[i]); }
    }
  }

  /** Canonical ids get different new ids. */
  lemma FinalIdInjective(m: seq<nat>, a: nat, b: nat)
    requires Forest(m) && a < |m| <= BTF_MAX_NR_TYPES + 1 && b < |m| && m[a] == a && m[b] == b
    requires FinalId(m, a) == FinalId(m, b)
    ensures a == b
  {
    ResolveStep(m, a);
    ResolveStep(m, b);
    if 0 < a { NewIdsIncrease(m, a); }
    if 0 < b { NewIdsIncrease(m, b); }
  }

  /** Two canonical reference types that become equal were equal. */
  lemma RemapInjective(m: seq<nat>, t: BtfType, u: BtfType)
    requires Forest(m) && |m| <= BTF_MAX_NR_TYPES + 1
    requires forall j :: 0 <= j < |t.refs| ==> t.refs[j] < |m| && m[t.refs[j]] == t.refs[j]
    requires forall j :: 0 <= j < |u.refs| ==> u.refs[j] < |m| && m[u.refs[j]] == u.refs[j]
    requires RemappedNode(m, t) == RemappedNode(m, u)
    ensures t == u
  {
    var rt, ru := RemappedNode(m, t), RemappedNode(m, u);
    assert |t.refs| == |rt.refs| == |u.refs|;
    forall j | 0 <= j < |t.refs| ensures t.refs[j] == u.refs[j] {
      assert rt.refs[j] == FinalId(m, t.refs[j]) && ru.refs[j] == FinalId(m, u.refs[j]);
      FinalIdInjective(m, t.refs[j], u.refs[j]);
    }
  }

  /** After compaction and remapping no two types of a merged kind are equal. */
  lemma {:induction false} NoDuplicates(g: BtfGraph, m: seq<nat>, h: BtfGraph, f: BtfGraph, fwds: bool)
    requires GraphOk(g) && Compacted(g, m, h) && Forest(m) && |f| == |h| && (fwds ==> PlainForwards(g))
    requires forall i, j :: 0 <= i < |h| && 0 <= j < |h[i].refs| ==> h[i].refs[j] < |m|
    requires forall i :: 0 <= i < |h| ==> f[i] == RemappedNode(m, h[i])
    requires PrimsDistinct(g, m) && RefsDistinct(g, m) && RefsResolved(g, m)
    ensures Irredundant(f, fwds)
  {
    forall i, j | 0 < i < j < |f| && MergedKind(Kind(f[i]), fwds) ensures f[i] != f[j] {
      var a := NewIdsOnto(m, |m|, i);
      var b := NewIdsOnto(m, |m|, j);
      assert h[i] == g[a] && h[j] == g[b] && a != b;
      if f[i] == f[j] {
        SameDescriptors(g, m, a, b, fwds);
        DifferentDescriptors(g, m, a, b, fwds);
      }
    }
  }

  lemma {:induction false} SameDescriptors(g: BtfGraph, m: seq<nat>, a: nat, b: nat, fwds: bool)
    requires GraphOk(g) && |m| == |g| && Forest(m) && 0 < a < |g| && 0 < b < |g| && m[a] == a && m[b] == b
    requires MergedKind(Kind(g[a]), fwds) && (fwds ==> PlainForwards(g))
    requires RefsResolved(g, m) && RemappedNode(m, g[a]) == RemappedNode(m, g[b])
    ensures g[a] == g[b]
  {
    var ra, rb := RemappedNode(m, g[a]), RemappedNode(m, g[b]);
    assert ra.sig == g[a].sig && rb.sig == g[b].sig;
    if IsFwd(g[a]) {
      assert IsFwd(g[b]) && g[a].refs == [0] && g[b].refs == [0];
    } else {
      assert Layout(g[a]) && Layout(g[b]);
      if IsRefKind(Kind(g[a])) { assert RefResolved(g, m, a) && RefResolved(g, m, b); }
      RemapInjective(m, g[a], g[b]);
    }
  }

  lemma DifferentDescriptors(g: BtfGraph, m: seq<nat>, a: nat, b: nat, fwds: bool)
    requires |m| == |g| && 0 < a < |g| && 0 < b < |g| && m[a] == a && m[b] == b && a != b
    requires MergedKind(Kind(g[a]), fwds)
    requires PrimsDistinct(g, m) && RefsDistinct(g, m)
    ensures g[a] != g[b]
  {
    var i, j := if a < b then a else b, if a < b then b else a;
    assert RefsDiffer(g, m, i, j);
  }

  // ----- one id for each meaning

  lemma {:induction false} StructsApartFrame(g: BtfGraph, m0: seq<nat>, m: seq<nat>)
    requires WellFormed(g) && StructsApart(g, m0, |g|) && |m| == |g|
    requires forall k :: 0 < k < |g| && IsComposite(g[k]) ==> m[k] == m0[k]
    ensures StructsApart(g, m, |g|)
  {
    forall i, j | 0 < i < j < |g| ensures StructPairApart(g, m, i, j) { assert StructPairApart(g, m0, i, j); }
  }

  lemma {:induction false} ApartStructs(g: BtfGraph, m: seq<nat>, i: nat, j: nat)
    requires GraphOk(g) && StructsApart(g, m, |g|) && i < |g| && j < |g| && i != j
    requires IsComposite(g[i]) && IsComposite(g[j]) && m[i] == i && m[j] == j
    ensures Same(g, i, g, j) ==> OwnConflict(g, i, j) || OwnConflict(g, j, i)
  {
    SameSym(g, i, j);
    if i < j { assert StructPairApart(g, m, i, j); } else { assert StructPairApart(g, m, j, i); }
  }

  /** Two structs of equal meaning end with one representative, or their representatives are in
      conflict. */
  ghost predicate StructsJoin(g: BtfGraph, m: seq<nat>)
    requires WellFormed(g) && |m| == |g| && Forest(m)
  {
    forall a, b :: 0 <= a < |g| && 0 <= b < |g| && IsComposite(g[a]) && Same(g, a, g, b) ==>
      var ra, rb := Resolve(m, a), Resolve(m, b);
      ra == rb || OwnConflict(g, ra, rb) || OwnConflict(g, rb, ra)
  }

  lemma {:induction false} StructsJoined(g: BtfGraph, m: seq<nat>)
    requires GraphOk(g) && SoundMap(g, m) && Forest(m) && AllMapped(m) && StructsApart(g, m, |g|)
    ensures StructsJoin(g, m)
  {
    forall a, b | 0 <= a < |g| && 0 <= b < |g| && IsComposite(g[a]) && Same(g, a, g, b)
      ensures var ra, rb := Resolve(m, a), Resolve(m, b);
              ra == rb || OwnConflict(g, ra, rb) || OwnConflict(g, rb, ra)
    {
      var ra, rb := Resolve(m, a), Resolve(m, b);
      RootsSame(g, m, a, b);
      SoundResolve(g, m, a);
      SameLabel(g, a, g, ra);
      SameLabel(g, ra, g, rb);
      assert IsMapped(m, ra) && IsMapped(m, rb);
      if ra != rb { ApartStructs(g, m, ra, rb); }
    }
  }

  /** Variables and data sections, which are never merged, do not occur. */
  predicate NoVariables(g: BtfGraph) {
    forall i :: 0 <= i < |g| ==> Kind(g[i]) != KIND_VAR && Kind(g[i]) != KIND_DATASEC
  }

  /** No two structs of equal meaning are in conflict. */
  ghost predicate ConflictFree(g: BtfGraph)
    requires WellFormed(g)
  {
    forall a, b :: 0 <= a < |g| && 0 <= b < |g| && IsComposite(g[a]) && Same(g, a, g, b) ==> !OwnConflict(g, a, b)
  }

  /** Two types end with one id exactly when they mean the same. */
  ghost predicate OneIdPerMeaning(g: BtfGraph, m: seq<nat>)
    requires WellFormed(g) && |m| == |g| && Forest(m)
  {
    forall a, b :: 0 <= a < |g| && 0 <= b < |g| ==> (Same(g, a, g, b) <==> FinalId(m, a) == FinalId(m, b))
  }

  /** What the passes leave when no structs are in conflict. */
  ghost predicate Settlement(g: BtfGraph, m: seq<nat>) {
    && GraphOk(g) && |m| == |g| && NoUnknown(g) && NoVariables(g) && PlainForwards(g)
    && PrimsDistinct(g, m) && RefsDistinct(g, m) && RefsResolved(g, m)
    && StructsDiffer(g, m)
  }

  /** Different canonical structs differ in meaning. */
  ghost predicate StructsDiffer(g: BtfGraph, m: seq<nat>)
    requires WellFormed(g) && |m| == |g|
  {
    forall i, j :: 0 <= i < |g| && 0 <= j < |g| && IsComposite(g[i]) && m[i] == i && m[j] == j && Same(g, i, g, j) ==>
      i == j
  }

  lemma {:induction false} StructsDifferFrom(origin: BtfGraph, g: BtfGraph, m: seq<nat>)
    requires GraphOk(origin) && SameGraph(origin, g) && StructsApart(origin, m, |origin|) && ConflictFree(origin)
    requires forall k :: 0 <= k < |g| ==> g[k].sig == origin[k].sig
    requires GraphOk(g)
    ensures |m| == |g| && StructsDiffer(g, m)
  {
    forall i, j | 0 <= i < |g| && 0 <= j < |g| && IsComposite(g[i]) && m[i] == i && m[j] == j && Same(g, i, g, j)
      ensures i == j
    {
      SameLabel(g, i, g, j);
      SameIn(origin, g, i, j);
      SameSym(origin, i, j);
      if i != j { ApartStructs(origin, m, i, j); }
    }
  }

  /** Two canonical types of equal meaning that are no reference types are one. */
  lemma {:induction false} LeavesDiffer(g: BtfGraph, m: seq<nat>, i: nat, j: nat)
    requires Settlement(g, m) && i < |g| && j < |g| && m[i] == i && m[j] == j && Same(g, i, g, j)
    requires !IsRefKind(Kind(g[i]))
    ensures i == j
  {
    SameLabel(g, i, g, j);
    assert Layout(g[i]) && Layout(g[j]);
    if IsPrim(g[i]) {
      assert g[i].refs == g[j].refs;
    }
  }

  /** Two canonical types of equal meaning are one. */
  lemma {:induction false} MeaningsDiffer(g: BtfGraph, m: seq<nat>, rank: seq<nat>, i: nat, j: nat)
    requires Settlement(g, m) && RefRanks(g, m, rank)
    requires i < |g| && j < |g| && m[i] == i && m[j] == j && Same(g, i, g, j)
    ensures i == j
    decreases rank[i]
  {
    if IsRefKind(Kind(g[i])) {
      SameLabel(g, i, g, j);
      RefIdsPositive(g, i, j);
      assert RefResolved(g, m, i) && RefResolved(g, m, j) && RefLower(g, m, rank, i);
      forall p | 0 <= p < |g[i].refs| ensures g[i].refs[p] == g[j].refs[p] {
        SameKids(g, i, g, j, p);
        if IsRefKind(Kind(g[g[i].refs[p]])) {
          MeaningsDiffer(g, m, rank, g[i].refs[p], g[j].refs[p]);
        } else {
          LeavesDiffer(g, m, g[i].refs[p], g[j].refs[p]);
        }
      }
      assert g[i].refs == g[j].refs;
      if i != j { DifferentDescriptors(g, m, i, j, true); }
    } else {
      LeavesDiffer(g, m, i, j);
    }
  }

  lemma RefIdsPositive(g: BtfGraph, i: nat, j: nat)
    requires GraphOk(g) && i < |g| && j < |g| && IsRefKind(Kind(g[i])) && g[i].sig == g[j].sig
    ensures 0 < i && 0 < j
  {
  }

  /** When no structs of equal meaning are in conflict, deduplication gives two types one id exactly
      when they mean the same. */
  lemma {:induction false} MeaningsJoined(origin: BtfGraph, g: BtfGraph, m: seq<nat>)
    requires GraphOk(origin) && GraphOk(g) && SameGraph(origin, g) && SoundMap(origin, m) && Forest(m) && AllMapped(m)
    requires SameSignatures(origin, g) && NoUnknown(g) && NoVariables(origin) && PlainForwards(g)
    requires PrimsDistinct(g, m) && RefsDistinct(g, m) && RefsResolved(g, m) && RefRanked(g, m)
    requires StructsApart(origin, m, |origin|) && ConflictFree(origin)
    ensures OneIdPerMeaning(origin, m)
  {
    StructsDifferFrom(origin, g, m);
    assert Settlement(g, m);
    var rank: seq<nat> :| RefRanks(g, m, rank);
    forall a, b | 0 <= a < |g| && 0 <= b < |g| ensures Same(origin, a, origin, b) <==> FinalId(m, a) == FinalId(m, b) {
      OneIdForPair(origin, g, m, rank, a, b);
    }
  }

  /** What the passes say about final ids. */
  lemma {:induction false} OneIdFacts(origin: BtfGraph, m0: seq<nat>, g: BtfGraph, m: seq<nat>)
    requires GraphOk(origin) && GraphOk(g) && SameGraph(origin, g) && SoundMap(origin, m) && Forest(m) && AllMapped(m)
    requires SameSignatures(origin, g) && NoUnknown(g) && PlainForwards(g)
    requires PrimsDistinct(g, m) && RefsDistinct(g, m) && RefsResolved(g, m) && RefRanked(g, m)
    requires StructsApart(origin, m0, |origin|) && StructsMapped(origin, m0, |origin|)
    requires forall k :: 0 < k < |m| && IsMapped(m0, k) ==> m[k] == m0[k]
    ensures StructsJoin(origin, m)
    ensures NoVariables(origin) && ConflictFree(origin) ==> OneIdPerMeaning(origin, m)
  {
    StructsApartFrame(origin, m0, m);
    StructsJoined(origin, m);
    if NoVariables(origin) && ConflictFree(origin) { MeaningsJoined(origin, g, m); }
  }

  lemma {:induction false} OneIdForPair(origin: BtfGraph, g: BtfGraph, m: seq<nat>, rank: seq<nat>, a: nat, b: nat)
    requires GraphOk(origin) && SameGraph(origin, g) && SoundMap(origin, m) && Forest(m) && AllMapped(m)
    requires Settlement(g, m) && RefRanks(g, m, rank) && a < |g| && b < |g|
    ensures Same(origin, a, origin, b) <==> FinalId(m, a) == FinalId(m, b)
  {
    var ra, rb := Resolve(m, a), Resolve(m, b);
    assert IsMapped(m, ra) && IsMapped(m, rb);
    SoundResolve(origin, m, a);
    SoundResolve(origin, m, b);
    if Same(origin, a, origin, b) {
      RootsSame(origin, m, a, b);
      SameIn(origin, g, ra, rb);
      MeaningsDiffer(g, m, rank, ra, rb);
    }
    if FinalId(m, a) == FinalId(m, b) {
      ResolveStep(m, ra);
      ResolveStep(m, rb);
      FinalIdInjective(m, ra, rb);
      SameSym(origin, b, ra);
      SameTrans(origin, a, origin, ra, origin, b);
    }
  }

  ghost predicate NoUnknown(g: BtfGraph) {
    forall i :: 0 < i < |g| ==> Kind(g[i]) != KIND_UNKN
  }

  lemma {:induction false} PrimEnd(g: BtfGraph, m: seq<nat>)
    requires GraphOk(g) && PrimProgress(g, m, |g|)
    ensures IsMapped(m, 0) && NoUnknown(g) && NoRefMapped(g, m) && NoSelfFrom(g, m, 1)
  {
    assert !IsPrim(g[0]);
    assert m[0] == InitialCanon(g)[0];
    forall i | 0 <= i < |g| && IsRefKind(Kind(g[i])) ensures !IsMapped(m, i) {
      assert !IsPrim(g[i]) && m[i] == InitialCanon(g)[i];
    }
  }

  lemma NoUnknownFrame(g0: BtfGraph, m0: seq<nat>, g: BtfGraph, m: seq<nat>)
    requires NoUnknown(g0) && RefFrame(g0, m0, g, m)
    ensures NoUnknown(g)
  {
  }

  ghost function RemappedNode(m: seq<nat>, t: BtfType): (r: BtfType)
    requires Forest(m) && forall j :: 0 <= j < |t.refs| ==> t.refs[j] < |m|
  {
    t.(refs := seq(|t.refs|, j requires 0 <= j < |t.refs| => FinalId(m, t.refs[j])))
  }

  function WithRef(t: BtfType, j: nat, v: nat): BtfType
    requires j < |t.refs|
  {
    t.(refs := t.refs[j := v])
  }

  function RefHash(t: BtfType): u64
    requires Layout(t) && IsRefKind(Kind(t))
  {
    if Kind(t) == KIND_ARRAY then HashArray(t) else if Kind(t) == KIND_FUNC_PROTO then HashFnproto(t) else HashCommon(t)
  }

  /** Replacing one reference by an id of the same meaning changes no meaning. */
  lemma {:induction false} RewriteKeeps(origin: BtfGraph, g: BtfGraph, x: nat, j: nat, v: nat, dontResolve: bool)
    requires GraphOk(g) && x < |g| && j < |g[x].refs| && v < |g|
    requires dontResolve ==> SameGraph(origin, g) && Same(g, g[x].refs[j], g, v)
    ensures GraphOk(g[x := WithRef(g[x], j, v)])
    ensures dontResolve ==> SameGraph(origin, g[x := WithRef(g[x], j, v)])
  {
    var g' := g[x := WithRef(g[x], j, v)];
    assert WellFormed(g');
    assert forall i :: 0 <= i < |g'| ==> g'[i].sig == g[i].sig && |g'[i].refs| == |g[i].refs| && Layout(g[i]);
    if dontResolve {
      forall i, k | 0 <= i < |g| && 0 <= k < |g[i].refs| ensures Same(g, g[i].refs[k], g, g'[i].refs[k]) {
      }
      RewrittenSound(g, g');
      SameGraphTrans(origin, g, g');
    }
  }

  lemma TableIdsAdd(g: BtfGraph, m: seq<nat>, index: iset<(u64, nat)>, h: u64, id: nat)
    requires TableIds(g, m, index) && 0 < id < |g| && m[id] == id
    ensures TableIds(g, m, index + iset{(h, id)})
  {
  }

  lemma TableIdsFrame(g0: BtfGraph, m0: seq<nat>, g: BtfGraph, m: seq<nat>, index: iset<(u64, nat)>)
    requires TableIds(g0, m0, index) && |g0| == |m0| == |g| == |m|
    requires forall k :: 0 <= k < |g| ==> g[k].sig == g0[k].sig
    requires forall k :: 0 <= k < |m| && IsMapped(m0, k) ==> m[k] == m0[k]
    requires |g| <= BTF_MAX_NR_TYPES + 1
    ensures TableIds(g, m, index)
  {
    forall p | p in index ensures 0 < p.1 < |g| && (IsFwd(g[p.1]) || IsEnum(g[p.1]) || m[p.1] == p.1) {
      assert 0 < p.1 < |g0|;
    }
  }

  lemma RefCandsOk(g: BtfGraph, m: seq<nat>, index: iset<(u64, nat)>, h: u64, cands: seq<nat>)
    requires TableIds(g, m, index) && forall id :: id in cands <==> (h, id) in index
    ensures forall j :: 0 <= j < |cands| ==> cands[j] < |g|
    ensures forall j :: 0 <= j < |cands| && IsRefKind(Kind(g[cands[j]])) ==> m[cands[j]] == cands[j]
  {
    forall j | 0 <= j < |cands| ensures cands[j] < |g| && (IsRefKind(Kind(g[cands[j]])) ==> m[cands[j]] == cands[j]) {
      assert cands[j] in cands;
      assert (h, cands[j]) in index;
    }
  }

  /** Canonical reference types are in the table under their hash, refer to canonical types only,
      and no two are equal; links lead to mapped ids. */
  ghost predicate RefTable(g: BtfGraph, m: seq<nat>, index: iset<(u64, nat)>) {
    && |m| == |g| && Layouts(g)
    && TargetsMapped(m)
    && (forall i :: 0 < i < |g| ==> RefIndexed(g, m, index, i))
    && RefsResolved(g, m)
    && RefsDistinct(g, m)
    && RefRanked(g, m)
  }

  /** References between canonical reference types lower a rank: they are on no cycle. */
  ghost predicate RefRanked(g: BtfGraph, m: seq<nat>)
    requires |m| == |g|
  {
    exists rank: seq<nat> :: RefRanks(g, m, rank)
  }

  ghost predicate RefRanks(g: BtfGraph, m: seq<nat>, rank: seq<nat>)
    requires |m| == |g|
  {
    |rank| == |g| && forall i :: 0 < i < |g| ==> RefLower(g, m, rank, i)
  }

  ghost predicate RefLower(g: BtfGraph, m: seq<nat>, rank: seq<nat>, i: nat)
    requires |m| == |g| == |rank| && i < |g|
  {
    CanonicalRef(g, m, i) ==>
      forall j :: 0 <= j < |g[i].refs| && g[i].refs[j] < |g| && CanonicalRef(g, m, g[i].refs[j]) ==>
        rank[g[i].refs[j]] < rank[i]
  }

  lemma {:induction false} RefRankedStart(g: BtfGraph, m: seq<nat>)
    requires NoRefMapped(g, m) && |g| <= BTF_MAX_NR_TYPES + 1
    ensures RefRanked(g, m)
  {
    var rank := seq(|g|, i => 0);
    forall i | 0 < i < |g| ensures RefLower(g, m, rank, i) { assert !CanonicalRef(g, m, i); }
    assert RefRanks(g, m, rank);
  }

  lemma {:induction false} RefRankedFrame(g0: BtfGraph, m0: seq<nat>, g: BtfGraph, m: seq<nat>)
    requires |m0| == |g0| == |g| == |m| && RefRanked(g0, m0)
    requires forall i :: 0 <= i < |g| && CanonicalRef(g, m, i) ==> CanonicalRef(g0, m0, i) && g[i] == g0[i]
    ensures RefRanked(g, m)
  {
    var rank: seq<nat> :| RefRanks(g0, m0, rank);
    forall i | 0 < i < |g| ensures RefLower(g, m, rank, i) { assert RefLower(g0, m0, rank, i); }
    assert RefRanks(g, m, rank);
  }

  ghost function Bound(s: seq<nat>): (b: nat)
    ensures forall i :: 0 <= i < |s| ==> s[i] < b
  {
    if s == [] then 0
    else
      var rest := Bound(s[..|s| - 1]);
      assert forall i :: 0 <= i < |s| - 1 ==> s[..|s| - 1][i] == s[i];
      if s[|s| - 1] < rest then rest else s[|s| - 1] + 1
  }

  /** A new canonical type is referred to by none of the others. */
  lemma {:induction false} RefRankedAdd(g: BtfGraph, m: seq<nat>, x: nat)
    requires |m| == |g| <= BTF_MAX_NR_TYPES + 1 && RefRanked(g, m) && RefsResolved(g, m) && 0 < x < |g|
    requires RootsUpTo(g, m, x, |g[x].refs|) && !IsMapped(m, x)
    ensures RefRanked(g, m[x := x])
  {
    var m' := m[x := x];
    var rank: seq<nat> :| RefRanks(g, m, rank);
    var rank' := rank[x := Bound(rank)];
    forall i | 0 < i < |g| ensures RefLower(g, m', rank', i) {
      assert RefLower(g, m, rank, i) && RefResolved(g, m, i);
    }
    assert RefRanks(g, m', rank');
  }

  /** The first `n` references of type `x` are canonical. */
  ghost predicate RootsUpTo(g: BtfGraph, m: seq<nat>, x: nat, n: nat)
    requires |m| == |g| && x < |g| && n <= |g[x].refs|
  {
    forall j :: 0 <= j < n ==> g[x].refs[j] < |m| && m[g[x].refs[j]] == g[x].refs[j]
  }

  ghost predicate RefResolved(g: BtfGraph, m: seq<nat>, i: nat)
    requires |m| == |g| && i < |g|
  {
    CanonicalRef(g, m, i) ==> RootsUpTo(g, m, i, |g[i].refs|)
  }

  /** Canonical reference types refer to canonical types only. */
  ghost predicate RefsResolved(g: BtfGraph, m: seq<nat>)
    requires |m| == |g|
  {
    forall i :: 0 < i < |g| ==> RefResolved(g, m, i)
  }

  predicate CanonicalRef(g: BtfGraph, m: seq<nat>, i: nat)
    requires |m| == |g| && i < |g|
  {
    IsRefKind(Kind(g[i])) && m[i] == i
  }

  ghost predicate RefIndexed(g: BtfGraph, m: seq<nat>, index: iset<(u64, nat)>, i: nat)
    requires |m| == |g| && i < |g| && Layouts(g)
  {
    CanonicalRef(g, m, i) ==> (RefHash(g[i]), i) in index
  }

  predicate RefsDiffer(g: BtfGraph, m: seq<nat>, i: nat, j: nat)
    requires |m| == |g| && i < |g| && j < |g|
  {
    CanonicalRef(g, m, i) && CanonicalRef(g, m, j) ==> g[i] != g[j]
  }

  /** No reference type has been mapped yet. */
  ghost predicate NoRefMapped(g: BtfGraph, m: seq<nat>) {
    |m| == |g| && forall i :: 0 <= i < |g| && IsRefKind(Kind(g[i])) ==> !IsMapped(m, i)
  }

  /** Different canonical reference types have different descriptors. */
  ghost predicate RefsDistinct(g: BtfGraph, m: seq<nat>)
    requires |m| == |g|
  {
    forall i, j :: 0 < i < j < |g| ==> RefsDiffer(g, m, i, j)
  }

  lemma RefTableStart(g: BtfGraph, m: seq<nat>, index: iset<(u64, nat)>)
    requires NoRefMapped(g, m) && TargetsMapped(m) && Layouts(g) && |g| <= BTF_MAX_NR_TYPES + 1
    ensures RefTable(g, m, index)
  {
    forall i | 0 < i < |g| ensures !CanonicalRef(g, m, i) {}
    RefRankedStart(g, m);
  }

  /** Changes away from canonical reference types leave the table as it is. */
  lemma {:induction false} RefTableFrame(g0: BtfGraph, m0: seq<nat>, g: BtfGraph, m: seq<nat>, index: iset<(u64, nat)>)
    requires RefTable(g0, m0, index) && |g0| == |g| == |m| && Layouts(g) && TargetsMapped(m)
    requires forall i :: 0 <= i < |g| && CanonicalRef(g, m, i) ==> CanonicalRef(g0, m0, i) && g[i] == g0[i]
    requires forall i :: 0 <= i < |m| && m0[i] == i ==> m[i] == i
    ensures RefTable(g, m, index)
  {
    RefRankedFrame(g0, m0, g, m);
    forall i | 0 < i < |g| ensures RefResolved(g, m, i) { assert RefResolved(g0, m0, i); }
    forall i | 0 < i < |g| ensures RefIndexed(g, m, index, i) { assert RefIndexed(g0, m0, index, i); }
    forall i, j | 0 < i < j < |g| ensures RefsDiffer(g, m, i, j) { assert RefsDiffer(g0, m0, i, j); }
  }

  /** The ids before `n` are mapped. */
  ghost predicate MappedUpTo(m: seq<nat>, n: nat) {
    n <= |m| && forall k :: 0 <= k < n ==> IsMapped(m, k)
  }

  lemma MappedStays(g0: BtfGraph, m0: seq<nat>, g: BtfGraph, m: seq<nat>, n: nat)
    requires RefFrame(g0, m0, g, m) && MappedUpTo(m0, n) && n < |m| && IsMapped(m, n)
    ensures MappedUpTo(m, n + 1)
  {
    forall k | 0 <= k < n ensures IsMapped(m, k) { assert IsMapped(m0, k) && k !in Pending(m0); }
  }

  lemma RefFrameTrans(g0: BtfGraph, m0: seq<nat>, g1: BtfGraph, m1: seq<nat>, g2: BtfGraph, m2: seq<nat>)
    requires RefFrame(g0, m0, g1, m1) && RefFrame(g1, m1, g2, m2) && Pending(m1) <= Pending(m0)
    ensures RefFrame(g0, m0, g2, m2)
  {
  }

  lemma RefFrameButTrans(g0: BtfGraph, m0: seq<nat>, g1: BtfGraph, m1: seq<nat>, g2: BtfGraph, m2: seq<nat>, x: nat)
    requires RefFrameBut(g0, m0, g1, m1, x) && RefFrameBut(g1, m1, g2, m2, x) && Pending(m1) <= Pending(m0)
    ensures RefFrameBut(g0, m0, g2, m2, x)
  {
  }

  /** Resolving another reference leaves those already resolved as they are. */
  lemma RootsStay(g0: BtfGraph, m0: seq<nat>, g: BtfGraph, m: seq<nat>, x: nat, n: nat)
    requires RefFrame(g0, m0, g, m) && |g0| <= BTF_MAX_NR_TYPES + 1 && x < |g0| && m0[x] == BTF_IN_PROGRESS_ID
    requires n <= |g0[x].refs| && RootsUpTo(g0, m0, x, n)
    ensures g[x] == g0[x] && RootsUpTo(g, m, x, n)
  {
  }

  /** A type that equals no candidate equals no canonical reference type. */
  lemma {:induction false} RefTableAdd(g: BtfGraph, m: seq<nat>, index: iset<(u64, nat)>, cands: seq<nat>, x: nat)
    requires RefTable(g, m, index) && 0 < x < |g| && IsRefKind(Kind(g[x]))
    requires forall id :: id in cands <==> (RefHash(g[x]), id) in index
    requires forall j :: 0 <= j < |cands| ==> cands[j] < |g| && g[cands[j]] != g[x]
    requires RootsUpTo(g, m, x, |g[x].refs|) && !IsMapped(m, x) && |g| <= BTF_MAX_NR_TYPES + 1
    ensures RefTable(g, m[x := x], index + iset{(RefHash(g[x]), x)})
  {
    var m', index' := m[x := x], index + iset{(RefHash(g[x]), x)};
    TargetsStayMapped(m, x, x);
    RefRankedAdd(g, m, x);
    forall i | 0 < i < |g| ensures RefResolved(g, m', i) { assert RefResolved(g, m, i); }
    forall i | 0 < i < |g|
      ensures RefIndexed(g, m', index', i) && (i != x && CanonicalRef(g, m', i) ==> g[i] != g[x])
    {
      assert RefIndexed(g, m, index, i);
      assert i != x && CanonicalRef(g, m', i) && g[i] == g[x] ==> i in cands;
    }
    forall i, j | 0 < i < j < |g| ensures RefsDiffer(g, m', i, j) { assert RefsDiffer(g, m, i, j); }
  }

  /** What the reference pass may change: descriptors and entries of ids not reached before, and of
      descriptors only the references. */
  ghost predicate RefFrame(g0: BtfGraph, m0: seq<nat>, g: BtfGraph, m: seq<nat>) {
    && |g0| == |m0| == |g| == |m|
    && (forall k :: 0 <= k < |g| ==> g[k].sig == g0[k].sig && |g[k].refs| == |g0[k].refs|)
    && (forall k :: 0 <= k < |g| && k !in Pending(m0) ==> g[k] == g0[k] && m[k] == m0[k])
  }

  /** The same, except that the references of `x`, which is in progress, may change too. */
  ghost predicate RefFrameBut(g0: BtfGraph, m0: seq<nat>, g: BtfGraph, m: seq<nat>, x: nat) {
    && |g0| == |m0| == |g| == |m| && x < |g|
    && (forall k :: 0 <= k < |g| ==> g[k].sig == g0[k].sig && |g[k].refs| == |g0[k].refs|)
    && (forall k :: 0 <= k < |g| && k !in Pending(m0) && k != x ==> g[k] == g0[k])
    && (forall k :: 0 <= k < |g| && k !in Pending(m0) ==> m[k] == m0[k])
  }

  predicate IsPrim(t: BtfType) {
    Kind(t) == KIND_INT || Kind(t) == KIND_ENUM || Kind(t) == KIND_FWD
  }

  /** INT, FWD and ENUM with enumerators, which are mapped to equal types only. */
  predicate IsPlainPrim(t: BtfType) {
    IsPrim(t) && !IsEnumFwd(t)
  }

  /** The signature hash of a primitive type. */
  function PrimHash(t: BtfType): u64
    requires Layout(t) && IsPrim(t)
  {
    if Kind(t) == KIND_INT then HashInt(t) else if Kind(t) == KIND_ENUM then HashEnum(t) else HashCommon(t)
  }

  /** The state of the primitive pass before type `n`: only earlier types are linked, and only to
      earlier types; plain primitives have an equal representative, and all representatives differ. */
  ghost predicate PrimProgress(g: BtfGraph, m: seq<nat>, n: nat) {
    && |m| == |g| && 1 <= n <= |g|
    && (forall i :: 0 <= i < |m| && IsLink(m, i) ==> i < n && m[i] < n)
    && (forall i :: 0 <= i < |m| && (i >= n || !IsPrim(g[i])) ==> m[i] == InitialCanon(g)[i])
    && (forall i :: 0 < i < n ==> Kind(g[i]) != KIND_UNKN && (IsPrim(g[i]) ==> IsMapped(m, i)))
    && (forall i :: 0 < i < n && IsPlainPrim(g[i]) ==> 0 < m[i] < n && m[m[i]] == m[i] && g[m[i]] == g[i])
    && (forall i, j :: 0 < i < j < n && IsPrim(g[i]) && m[i] == i && m[j] == j ==> g[i] != g[j])
  }

  /** Ids in the table are types; all but enums and forwards are their own representatives. */
  ghost predicate TableIds(g: BtfGraph, m: seq<nat>, index: iset<(u64, nat)>) {
    |m| == |g| &&
    forall p :: p in index ==> 0 < p.1 < |g| && (IsFwd(g[p.1]) || IsEnum(g[p.1]) || m[p.1] == p.1)
  }

  /** The table during the primitive pass before type `n`: it holds earlier primitives, and every
      representative under its hash. */
  ghost predicate PrimTable(g: BtfGraph, m: seq<nat>, index: iset<(u64, nat)>, n: nat) {
    && n <= |g| == |m| && Layouts(g)
    && (forall p :: p in index ==> 0 < p.1 < n && IsPrim(g[p.1]) && (IsEnumFwd(g[p.1]) || m[p.1] == p.1))
    && (forall i :: 0 < i < n && IsPrim(g[i]) && m[i] == i ==> (PrimHash(g[i]), i) in index)
  }

  lemma {:induction false} PrimTableStep(g: BtfGraph, m: seq<nat>, m': seq<nat>, index: iset<(u64, nat)>, n: nat)
    requires PrimTable(g, m, index, n) && PrimGrows(g, m, m', n) && n < |g| && 0 < n && IsPrim(g[n])
    ensures TableIds(g, m', index)
    ensures m'[n] == n ==> PrimTable(g, m', index + iset{(PrimHash(g[n]), n)}, n + 1)
    ensures m'[n] != n ==> PrimTable(g, m', index, n + 1)
  {
    forall p | p in index ensures 0 < p.1 < n + 1 && IsPrim(g[p.1]) && (IsEnumFwd(g[p.1]) || m'[p.1] == p.1) {
      assert 0 < p.1 < n;
    }
  }

  /** The candidates for type `n`: earlier primitives, among them every representative equal to it. */
  ghost predicate PrimCands(g: BtfGraph, m: seq<nat>, cands: seq<nat>, n: nat)
    requires |m| == |g| && n < |g|
  {
    && (forall j :: 0 <= j < |cands| ==> 0 < cands[j] < n && (IsEnumFwd(g[cands[j]]) || m[cands[j]] == cands[j]))
    && (forall i :: 0 < i < n && m[i] == i && g[i] == g[n] && IsPrim(g[i]) ==> i in cands)
    && (forall i :: 0 < i < n && m[i] == i && IsEnum(g[n]) && EnumsMatch(g[i], g[n]) ==> i in cands)
  }

  /** One of two enums is the forward declaration of the other. */
  ghost predicate EnumsMatch(t: BtfType, u: BtfType) {
    IsEnum(t) && IsEnum(u) && (StandsFor(t.sig, u.sig) || StandsFor(u.sig, t.sig))
  }

  lemma PrimCandsOk(g: BtfGraph, m: seq<nat>, index: iset<(u64, nat)>, h: u64, cands: seq<nat>, n: nat)
    requires PrimTable(g, m, index, n) && n < |g| && IsPrim(g[n]) && h == PrimHash(g[n])
    requires forall id :: id in cands <==> (h, id) in index
    ensures PrimCands(g, m, cands, n)
  {
    forall j | 0 <= j < |cands| ensures 0 < cands[j] < n && (IsEnumFwd(g[cands[j]]) || m[cands[j]] == cands[j]) {
      assert cands[j] in cands;
      assert (h, cands[j]) in index;
    }
    forall i | 0 < i < n && m[i] == i && IsEnum(g[n]) && EnumsMatch(g[i], g[n]) ensures i in cands {
      assert HashEnum(g[i]) == HashEnum(g[n]);
    }
  }

  /** Types of other kinds are passed over. */
  lemma {:induction false} PrimSkip(g: BtfGraph, m: seq<nat>, index: iset<(u64, nat)>, n: nat)
    requires PrimProgress(g, m, n) && PrimTable(g, m, index, n) && n < |g| && !IsPrim(g[n])
    ensures Kind(g[n]) != KIND_UNKN ==> PrimProgress(g, m, n + 1) && PrimTable(g, m, index, n + 1)
  {
    PrimSkipTable(g, m, index, n);
    if Kind(g[n]) != KIND_UNKN { PrimSkipProgress(g, m, n); }
  }

  lemma PrimSkipTable(g: BtfGraph, m: seq<nat>, index: iset<(u64, nat)>, n: nat)
    requires PrimTable(g, m, index, n) && n < |g| && !IsPrim(g[n])
    ensures PrimTable(g, m, index, n + 1)
  {
    assert forall p :: p in index ==> 0 < p.1 < n + 1;
  }

  lemma {:induction false} PrimSkipProgress(g: BtfGraph, m: seq<nat>, n: nat)
    requires PrimProgress(g, m, n) && n < |g| && !IsPrim(g[n]) && Kind(g[n]) != KIND_UNKN
    ensures PrimProgress(g, m, n + 1)
  {
    assert !IsPlainPrim(g[n]);
    forall i, j | 0 < i < j < n + 1 && IsPrim(g[i]) && m[i] == i && m[j] == j ensures g[i] != g[j] {
      if j == n { assert !IsPrim(g[j]); }
    }
  }

  /** Recording type `n` maps it and leaves mapped types mapped. */
  lemma {:induction false} PrimMapped(g: BtfGraph, m: seq<nat>, m': seq<nat>, n: nat)
    requires PrimProgress(g, m, n) && PrimProgress(g, m', n + 1) && PrimGrows(g, m, m', n) && 0 < n < |g|
    requires IsPrim(g[n]) && |g| <= BTF_MAX_NR_TYPES + 1 && !IsMapped(m, n)
    ensures |MappedIds(m)| < |MappedIds(m')|
  {
    MappedGrows(m, m');
  }

  lemma {:induction false} PrimStart(g: BtfGraph)
    requires GraphOk(g)
    ensures PrimProgress(g, InitialCanon(g), 1) && PrimTable(g, InitialCanon(g), iset{}, 1)
  {
  }

  /** What recording type `n` changes: its own entry, and entries of forward enums. */
  ghost predicate PrimGrows(g: BtfGraph, m: seq<nat>, m': seq<nat>, n: nat) {
    && |m| == |m'| == |g|
    && (forall i :: 0 <= i < |m| ==> i == n || m'[i] == m[i] || (IsEnumFwd(g[i]) && m'[i] == n))
  }

  lemma {:induction false} PrimStep(g: BtfGraph, m0: seq<nat>, m: seq<nat>, n: nat, newId: nat)
    requires PrimProgress(g, m0, n) && |m| == |g| && 0 < n < |g| <= BTF_MAX_NR_TYPES + 1 && IsPrim(g[n]) && newId <= n
    requires 0 < newId
    requires m0[n] == m[n] > BTF_MAX_NR_TYPES
    requires forall i :: 0 <= i < |m| ==> m[i] == m0[i] || (i < n && IsEnumFwd(g[i]) && m[i] == n)
    requires newId != n && IsPlainPrim(g[n]) ==> m0[newId] == newId && g[newId] == g[n]
    requires newId == n ==> forall i :: 0 < i < n && m0[i] == i ==> g[i] != g[n]
    requires Kind(g[newId]) == Kind(g[n]) && (!IsEnum(g[n]) ==> m == m0)
    ensures PrimProgress(g, m[n := newId], n + 1)
    ensures PrimGrows(g, m0, m[n := newId], n)
  {
    var m' := m[n := newId];
    assert forall i :: 0 <= i < |m'| && i != n && !IsEnumFwd(g[i]) ==> m'[i] == m0[i];
    PrimStepLinks(g, m0, m', n);
    PrimStepPlain(g, m0, m', n);
    PrimStepDistinct(g, m0, m', n);
  }

  lemma {:induction false} PrimStepLinks(g: BtfGraph, m0: seq<nat>, m: seq<nat>, n: nat)
    requires PrimProgress(g, m0, n) && |m| == |g| && 0 < n < |g| <= BTF_MAX_NR_TYPES + 1 && IsPrim(g[n]) && m[n] <= n
    requires forall i :: 0 <= i < |m| && i != n ==> m[i] == m0[i] || (i < n && IsEnumFwd(g[i]) && m[i] == n)
    ensures forall i :: 0 <= i < |m| && IsLink(m, i) ==> i < n + 1 && m[i] < n + 1
    ensures forall i :: 0 <= i < |m| && (i >= n + 1 || !IsPrim(g[i])) ==> m[i] == InitialCanon(g)[i]
    ensures forall i :: 0 < i < n + 1 ==> Kind(g[i]) != KIND_UNKN && (IsPrim(g[i]) ==> IsMapped(m, i))
  {
    forall i | 0 <= i < |m| && IsLink(m, i) ensures i < n + 1 && m[i] < n + 1 {
      if i != n && m[i] == m0[i] { assert IsLink(m0, i); }
    }
    forall i | 0 <= i < |m| && (i >= n + 1 || !IsPrim(g[i])) ensures m[i] == InitialCanon(g)[i] {
      assert m[i] == m0[i];
    }
    forall i | 0 < i < n + 1 ensures Kind(g[i]) != KIND_UNKN && (IsPrim(g[i]) ==> IsMapped(m, i)) {
      if i < n && IsPrim(g[i]) { assert IsMapped(m0, i); }
    }
  }

  lemma {:induction false} PrimStepPlain(g: BtfGraph, m0: seq<nat>, m: seq<nat>, n: nat)
    requires PrimProgress(g, m0, n) && |m| == |g| && 0 < n < |g| && 0 < m[n] <= n
    requires forall i :: 0 <= i < |m| && i != n && !IsEnumFwd(g[i]) ==> m[i] == m0[i]
    requires m[n] != n && IsPlainPrim(g[n]) ==> m0[m[n]] == m[n] && g[m[n]] == g[n]
    ensures forall i :: 0 < i < n + 1 && IsPlainPrim(g[i]) ==> 0 < m[i] < n + 1 && m[m[i]] == m[i] && g[m[i]] == g[i]
  {
    forall i | 0 < i < n + 1 && IsPlainPrim(g[i])
      ensures 0 < m[i] < n + 1 && m[m[i]] == m[i] && g[m[i]] == g[i]
    {
      if i < n { assert m[i] == m0[i] && IsPlainPrim(g[m0[i]]); }
    }
  }

  lemma {:induction false} PrimStepDistinct(g: BtfGraph, m0: seq<nat>, m: seq<nat>, n: nat)
    requires PrimProgress(g, m0, n) && |m| == |g| && 0 < n < |g|
    requires forall i :: 0 <= i < |m| && i != n ==> m[i] == m0[i] || m[i] == n
    requires m[n] == n ==> forall i :: 0 < i < n && m0[i] == i ==> g[i] != g[n]
    ensures forall i, j :: 0 < i < j < n + 1 && IsPrim(g[i]) && m[i] == i && m[j] == j ==> g[i] != g[j]
  {
    forall i, j | 0 < i < j < n + 1 && IsPrim(g[i]) && m[i] == i && m[j] == j ensures g[i] != g[j] {
      assert m0[i] == i;
    }
  }

  /** At the end of the primitive pass, plain primitives share a representative exactly when their
      descriptors are equal: the hash index finds what a scan of all earlier types would find. */
  lemma PlainPrimsAgree(g: BtfGraph, m: seq<nat>, i: nat, j: nat)
    requires PrimProgress(g, m, |g|) && 0 < i < |g| && 0 < j < |g|
    requires IsPlainPrim(g[i]) && IsPlainPrim(g[j])
    ensures m[i] == m[j] <==> g[i] == g[j]
  {
    var ri, rj := m[i], m[j];
    assert m[ri] == ri && m[rj] == rj;
    assert IsPlainPrim(g[ri]) && IsPlainPrim(g[rj]);
  }

  /** Linking an id nothing points to keeps forest and soundness. */
  lemma FreshKeeps(origin: BtfGraph, g: BtfGraph, m: seq<nat>, x: nat, y: nat, dontResolve: bool)
    requires WellFormed(g) && |m| == |g| == |origin| && Forest(m)
    requires dontResolve ==> SameGraph(origin, g) && SoundMap(origin, m)
    requires x < |g| && y < |g| && x != y && forall i :: 0 <= i < |m| && IsLink(m, i) ==> m[i] != x
    requires dontResolve ==> Same(g, x, g, y)
    ensures Forest(m[x := y])
    ensures dontResolve ==> SoundMap(origin, m[x := y])
  {
    LinkFresh(m, x, y);
    if dontResolve {
      SameIn(origin, g, x, y);
      SoundLink(origin, m, x, y);
    }
  }

  lemma SameSym(g: BtfGraph, a: nat, b: nat)
    requires WellFormed(g) && a < |g| && b < |g| 
    ensures Same(g, a, g, b) <==> Same(g, b, g, a)
  {
  }

  lemma SoundBack(origin: BtfGraph, g: BtfGraph, m: seq<nat>)
    requires SameGraph(origin, g) && SoundMap(g, m)
    ensures SoundMap(origin, m)
  {
    forall i | 0 <= i < |m| && IsMapped(m, i) ensures Same(origin, i, origin, m[i]) {
      SameIn(origin, g, i, m[i]);
    }
  }

  /** Linking `x` to a root of the same meaning keeps forest and soundness. */
  lemma LinkKeeps(origin: BtfGraph, g: BtfGraph, m: seq<nat>, x: nat, y: nat, dontResolve: bool)
    requires WellFormed(g) && |m| == |g| == |origin| && Forest(m)
    requires dontResolve ==> SameGraph(origin, g) && SoundMap(origin, m)
    requires x < |g| && y < |g| && x != y && !IsLink(m, y)
    requires dontResolve ==> Same(g, x, g, y)
    ensures Forest(m[x := y])
    ensures dontResolve ==> SoundMap(origin, m[x := y])
  {
    LinkToRoot(m, x, y);
    if dontResolve {
      SameIn(origin, g, x, y);
      SoundLink(origin, m, x, y);
    }
  }

  /** Making `x` its own representative, or marking it, keeps forest and soundness. */
  lemma RootKeeps(origin: BtfGraph, m: seq<nat>, x: nat, v: nat, dontResolve: bool)
    requires |m| == |origin| && Forest(m) && x < |m| && (v == x || v > BTF_MAX_NR_TYPES)
    requires dontResolve ==> WellFormed(origin) && SoundMap(origin, m)
    ensures Forest(m[x := v])
    ensures dontResolve ==> SoundMap(origin, m[x := v])
  {
    MakeRoot(m, x, v);
    if dontResolve {
      if v == x { assert Same(origin, x, origin, x); }
      SoundLink(origin, m, x, v);
    }
  }

  lemma RootsSame(g: BtfGraph, m: seq<nat>, k: nat, c: nat)
    requires WellFormed(g) && SoundMap(g, m) && Forest(m) && k < |g| && c < |g| && Same(g, k, g, c)
    ensures Same(g, Resolve(m, k), g, Resolve(m, c)) && Same(g, Resolve(m, c), g, Resolve(m, k))
  {
    SoundResolve(g, m, k);
    SoundResolve(g, m, c);
    var rk, rc := Resolve(m, k), Resolve(m, c);
    forall n: nat ensures Unfold(g, rk, n) == Unfold(g, rc, n) {
      assert Unfold(g, k, n) == Unfold(g, rk, n) && Unfold(g, c, n) == Unfold(g, rc, n);
      assert Unfold(g, k, n) == Unfold(g, c, n);
    }
  }

  /** Mapped ids stay mapped, an id that is its own representative and no forward stays so, and
      reference types are left alone. */
  ghost predicate CanonGrows(g: BtfGraph, m: seq<nat>, m': seq<nat>) {
    && |m| == |m'| == |g|
    && (forall i :: 0 <= i < |m| ==> CanonGrowsAt(g, m, m', i))
  }

  predicate CanonGrowsAt(g: BtfGraph, m: seq<nat>, m': seq<nat>, i: nat)
    requires |m| == |m'| == |g| && i < |g|
  {
    && (IsRefKind(Kind(g[i])) ==> m'[i] == m[i])
    && (IsMapped(m, i) ==> IsMapped(m', i))
    && (m[i] == i && !IsFwd(g[i]) ==> m'[i] == i)
    && (IsLink(m, i) ==> m'[i] != i)
  }

  lemma CanonGrowsSelf(g: BtfGraph, m: seq<nat>)
    requires |m| == |g|
    ensures CanonGrows(g, m, m)
  {
  }

  /** What merging one pair keeps. */
  lemma {:induction false} MergedPairKeeps(g: BtfGraph, m: seq<nat>, c: nat, t: nat, exact: bool)
    requires GraphOk(g) && |m| == |g| && Forest(m) && Links(g, m) && c < |g| && t < |g|
    requires ClassOf(g, g[c]) == ClassOf(g, g[t])
    requires exact ==> SoundMap(g, m) && Same(g, c, g, t)
    ensures var r := MergedPair(g, m, c, t);
            Links(g, r) && CanonGrows(g, m, r) && NoNewSelf(m, r, 0) && (exact ==> SoundMap(g, r))
  {
    var tId, cId := Resolve(m, t), Resolve(m, c);
    CanonGrowsSelf(g, m);
    RootsClass(g, m, c, t);
    if exact {
      RootsSame(g, m, c, t);
      SameLabel(g, cId, g, tId);
    }
    if !IsFwd(g[tId]) && IsFwd(g[cId]) {
      MergeLink(g, m, cId, tId);
    } else if IsFwd(g[tId]) && !IsFwd(g[cId]) {
      MergeLink(g, m, tId, cId);
    } else if IsComposite(g[tId]) && !IsFwd(g[cId]) && IsMapped(m, cId) && !IsMapped(m, tId) {
      MergeLink(g, m, tId, cId);
      if exact { SoundLink(g, m, tId, cId); }
    }
  }

  /** Recorded pairs mean the same. */
  ghost predicate PairsSame(g: BtfGraph, hyp: seq<nat>)
    requires WellFormed(g)
  {
    |hyp| == |g| && forall k :: 0 <= k < |hyp| ==> PairSame(g, hyp, k)
  }

  ghost predicate PairSame(g: BtfGraph, hyp: seq<nat>, k: nat)
    requires WellFormed(g) && k < |hyp| == |g|
  {
    hyp[k] <= BTF_MAX_NR_TYPES ==> hyp[k] < |g| && Same(g, k, g, hyp[k])
  }

  /** What a change of the canonical map keeps. */
  ghost predicate Kept(g: BtfGraph, m: seq<nat>, r: seq<nat>, exact: bool)
    requires WellFormed(g)
  {
    && |r| == |g| && Forest(r) && Links(g, r) && CanonGrows(g, m, r) && NoNewSelf(m, r, 0)
    && (exact ==> SoundMap(g, r))
  }

  lemma {:induction false} KeptNext(g: BtfGraph, m: seq<nat>, r: seq<nat>, c: nat, t: nat, exact: bool)
    requires GraphOk(g) && |m| == |g| && Kept(g, m, r, exact) && c < |g| && t < |g|
    requires ClassOf(g, g[c]) == ClassOf(g, g[t]) && (exact ==> Same(g, c, g, t))
    ensures Kept(g, m, MergedPair(g, r, c, t), exact)
  {
    MergedPairKeeps(g, r, c, t, exact);
    CanonGrowsTrans(g, m, r, MergedPair(g, r, c, t));
  }

  /** What merging the hypothetical map keeps. */
  lemma {:induction false} StepsKeep(g: BtfGraph, hyp: seq<nat>, list: seq<nat>, maps: seq<seq<nat>>, n: nat,
                                     exact: bool)
    requires GraphOk(g) && MergeSteps(g, hyp, list, maps) && n < |maps| && Kept(g, maps[0], maps[0], exact)
    requires PairClasses(g, hyp) && (exact ==> PairsSame(g, hyp))
    ensures Kept(g, maps[0], maps[n], exact)
  {
    if n > 0 {
      StepsKeep(g, hyp, list, maps, n - 1, exact);
      StepKeeps(g, maps[0], hyp, list, maps, n - 1, exact);
    }
  }

  lemma {:induction false} StepKeeps(g: BtfGraph, m: seq<nat>, hyp: seq<nat>, list: seq<nat>, maps: seq<seq<nat>>,
                                     n: nat, exact: bool)
    requires GraphOk(g) && |m| == |g| && MergeSteps(g, hyp, list, maps) && n + 1 < |maps|
    requires PairClasses(g, hyp) && (exact ==> PairsSame(g, hyp)) && Kept(g, m, maps[n], exact)
    ensures Kept(g, m, maps[n + 1], exact)
  {
    assert MergeStep(g, hyp, list, maps, n);
    RecordedPair(g, hyp, list[n], exact);
    KeptNext(g, m, maps[n], list[n], hyp[list[n]], exact);
  }

  lemma {:induction false} MergedKeeps(g: BtfGraph, m: seq<nat>, hyp: seq<nat>, list: seq<nat>, r: seq<nat>,
                                       exact: bool)
    requires GraphOk(g) && Kept(g, m, m, exact) && MergesTo(g, m, hyp, list, r)
    requires PairClasses(g, hyp) && (exact ==> PairsSame(g, hyp))
    ensures Kept(g, m, r, exact)
  {
    var maps :| MergeSteps(g, hyp, list, maps) && |maps| == |list| + 1 && maps[0] == m && maps[|list|] == r;
    StepsKeep(g, hyp, list, maps, |list|, exact);
  }

  lemma {:induction false} RecordedPair(g: BtfGraph, hyp: seq<nat>, k: nat, exact: bool)
    requires WellFormed(g) && PairClasses(g, hyp) && (exact ==> PairsSame(g, hyp))
    requires k < |hyp| && hyp[k] < |g| <= BTF_MAX_NR_TYPES + 1
    ensures ClassOf(g, g[k]) == ClassOf(g, g[hyp[k]]) && (exact ==> Same(g, k, g, hyp[k]))
  {
    assert exact ==> PairSame(g, hyp, k);
  }

  /** What a positive answer of the equivalence check means, and what merging then keeps. */
  lemma {:induction false} CheckedKeeps(g: BtfGraph, m: seq<nat>, hyp: seq<nat>, list: seq<nat>, x: nat, y: nat,
                                        exact: bool)
    requires GraphOk(g) && |m| == |g| && Forest(m) && Links(g, m) && (exact ==> SoundMap(g, m))
    requires Recorded(g, hyp, list) && x < |g| && y < |g| && !IsFwd(g[y])
    requires ClosedExcept(g, m, hyp, {}, exact) && Settled(g, m, hyp, x, y)
    ensures forall r :: MergesTo(g, m, hyp, list, r) ==> Kept(g, m, r, exact)
    ensures exact ==> Same(g, x, g, y)
  {
    if exact { SettledSame(g, m, hyp, x, y); }
    ClosedPairClasses(g, m, hyp, exact);
    CanonGrowsSelf(g, m);
    forall r | MergesTo(g, m, hyp, list, r) ensures Kept(g, m, r, exact) { MergedKeeps(g, m, hyp, list, r, exact); }
  }

  lemma {:induction false} SettledSame(g: BtfGraph, m: seq<nat>, hyp: seq<nat>, x: nat, y: nat)
    requires GraphOk(g) && SoundMap(g, m) && Forest(m) && |hyp| == |g| && x < |g| && y < |g| && !IsFwd(g[y])
    requires ClosedExcept(g, m, hyp, {}, true) && Settled(g, m, hyp, x, y)
    ensures PairsSame(g, hyp) && Same(g, x, g, y)
  {
    ClosedMapSound(g, m, hyp);
    SettledMatched(g, m, hyp, x, y);
    assert Matched(g, Pairs(hyp), y, x);
    SameSym(g, y, x);
  }

  /** A link the merge makes: from a forward, or from a struct or union that is not mapped, to a root. */
  lemma {:induction false} MergeLink(g: BtfGraph, m: seq<nat>, x: nat, v: nat)
    requires |m| == |g| <= BTF_MAX_NR_TYPES + 1 && Forest(m) && x < |g| && v < |g| && x != v && !IsLink(m, v)
    requires IsFwd(g[x]) || (IsComposite(g[x]) && !IsMapped(m, x))
    requires Links(g, m) && ClassOf(g, g[v]) == ClassOf(g, g[x]) && !IsFwd(g[v])
    ensures Links(g, m[x := v])
    ensures Forest(m[x := v]) && CanonGrows(g, m, m[x := v]) && NoNewSelf(m, m[x := v], 0)
  {
    LinkToRoot(m, x, v);
    ClassRepresents(g, x, v);
    LinksSet(g, m, x, v);
    CanonGrowsSelf(g, m);
    CanonGrowsSet(g, m, m, x, v);
  }

  /** The table stays in order. */
  lemma CanonGrowsTable(g: BtfGraph, m: seq<nat>, m': seq<nat>, index: iset<(u64, nat)>)
    requires CanonGrows(g, m, m') && TableIds(g, m, index)
    ensures TableIds(g, m', index)
  {
    forall p | p in index ensures 0 < p.1 < |g| && (IsFwd(g[p.1]) || IsEnum(g[p.1]) || m'[p.1] == p.1) {
      assert CanonGrowsAt(g, m, m', p.1);
    }
  }

  /** The structs and unions before `n` are mapped. */
  ghost predicate StructsMapped(g: BtfGraph, m: seq<nat>, n: nat) {
    n <= |g| == |m| && forall i :: 0 < i < n && IsComposite(g[i]) ==> IsMapped(m, i)
  }

  lemma StructsStayMapped(g: BtfGraph, m: seq<nat>, m': seq<nat>, n: nat)
    requires StructsMapped(g, m, n) && CanonGrows(g, m, m') && n < |g| && (IsComposite(g[n]) ==> IsMapped(m', n))
    ensures StructsMapped(g, m', n + 1)
  {
    forall i | 0 < i < n && IsComposite(g[i]) ensures IsMapped(m', i) { assert CanonGrowsAt(g, m, m', i); }
  }

  lemma CanonGrowsTrans(g: BtfGraph, m0: seq<nat>, m1: seq<nat>, m2: seq<nat>)
    requires CanonGrows(g, m0, m1) && CanonGrows(g, m1, m2)
    ensures CanonGrows(g, m0, m2)
  {
    forall i | 0 <= i < |m0| ensures CanonGrowsAt(g, m0, m2, i) {
      assert CanonGrowsAt(g, m0, m1, i) && CanonGrowsAt(g, m1, m2, i);
    }
  }

  /** Mapping a forward, or a struct or union that is not mapped yet. */
  lemma CanonGrowsSet(g: BtfGraph, m0: seq<nat>, m: seq<nat>, x: nat, v: nat)
    requires CanonGrows(g, m0, m) && x < |g| <= BTF_MAX_NR_TYPES + 1 && v <= BTF_MAX_NR_TYPES
    requires IsFwd(g[x]) || (IsComposite(g[x]) && !IsMapped(m0, x))
    requires IsMapped(m0, x) ==> v != x
    ensures CanonGrows(g, m0, m[x := v])
  {
    var m' := m[x := v];
    forall i | 0 <= i < |m'| ensures CanonGrowsAt(g, m0, m', i) { assert CanonGrowsAt(g, m0, m, i); }
  }

  function InitialCanon(g: BtfGraph): (m: seq<nat>)
    requires |g| > 0
  {
    seq(|g|, i requires 0 <= i < |g| =>
      if i == 0 || Kind(g[i]) == KIND_VAR || Kind(g[i]) == KIND_DATASEC then i else BTF_UNPROCESSED_ID)
  }

  lemma InitialForest(g: BtfGraph)
    requires GraphOk(g)
    ensures Forest(InitialCanon(g)) && |InitialCanon(g)| == |g|
  {
    LinklessForest(InitialCanon(g));
  }

  lemma AddKeepsClosed(g: BtfGraph, m: seq<nat>, hyp: seq<nat>, k: nat, c: nat, open: set<nat>, dontResolve: bool)
    requires |m| == |g| == |hyp| && |g| <= BTF_MAX_NR_TYPES + 1 && Forest(m) && Layouts(g)
    requires k < |g| && c < |g| && hyp[k] > BTF_MAX_NR_TYPES
    requires ClosedExcept(g, m, hyp, open, dontResolve)
    ensures ClosedExcept(g, m, hyp[k := c], open + {k}, dontResolve)
  {
    var hyp' := hyp[k := c];
    forall i | 0 <= i < |hyp'| && hyp'[i] <= BTF_MAX_NR_TYPES && i !in open + {k}
      ensures PairClosed(g, m, hyp', i, dontResolve)
    {
      PairClosedExtends(g, m, hyp, hyp', i, dontResolve);
    }
  }

  /** The comparison of two descriptors in `btf_dedup_is_equiv`, type ids aside. */
  method CompareLocally(cand: BtfType, canon: BtfType, dontResolve: bool) returns (r: int)
    requires Layout(cand) && Layout(canon)
    ensures r <= 1
    ensures r > 0 ==> LocallyCompatible(cand, canon, dontResolve)
    ensures r > 0 && Kind(cand) == Kind(canon) && !IsEnum(cand) ==> cand.sig == canon.sig
    ensures r == 0 ==> !LocallyCompatible(cand, canon, dontResolve)
    ensures r < 0 ==> r == EINVAL && Kind(cand) == Kind(canon) && Kind(cand) in {KIND_UNKN, KIND_VAR, KIND_DATASEC}
  {
    if cand.sig.name != canon.sig.name { return 0; }
    var kind := Kind(cand);
    if !dontResolve && (kind == KIND_FWD || Kind(canon) == KIND_FWD) && kind != Kind(canon) {
      var realKind, fwdKind;
      if kind == KIND_FWD {
        realKind, fwdKind := Kind(canon), FwdKind(cand);
      } else {
        realKind, fwdKind := kind, FwdKind(canon);
      }
      return if fwdKind == realKind then 1 else 0;
    }
    if kind != Kind(canon) { return 0; }
    if kind == KIND_INT {
      EqualIntMeans(cand, canon);
      return if EqualInt(cand, canon) then 1 else 0;
    } else if kind == KIND_ENUM {
      EqualEnumMeans(cand, canon);
      if dontResolve { return if EqualEnum(cand, canon) then 1 else 0; }
      if CompatEnum(cand, canon) { CompatEnumMeans(cand, canon); }
      return if CompatEnum(cand, canon) then 1 else 0;
    } else if kind == KIND_FWD {
      EqualFwdMeans(cand, canon);
      return if EqualCommon(cand, canon) then 1 else 0;
    } else if SingleRefKind(kind) {
      if cand.sig.info == canon.sig.info {
        assert cand.sig.vals == canon.sig.vals && cand.sig.names == canon.sig.names;
      }
      return if cand.sig.info == canon.sig.info then 1 else 0;
    } else if kind == KIND_ARRAY {
      EqualArrayMeans(cand, canon);
      return if CompatArray(cand, canon) then 1 else 0;
    } else if kind == KIND_STRUCT || kind == KIND_UNION {
      ShallowEqualStructMeans(cand, canon);
      return if ShallowEqualStruct(cand, canon) then 1 else 0;
    } else if kind == KIND_FUNC_PROTO {
      EqualFnprotoMeans(cand, canon);
      return if CompatFnproto(cand, canon) then 1 else 0;
    } else {
      return EINVAL;
    }
  }

  /** The references the equivalence check follows, in its order: an array's index type comes
      before its element type; a forward's type field is compared and not followed. */
  function Visited(t: BtfType): seq<nat>
    requires Layout(t)
  {
    if Kind(t) == KIND_ARRAY then [t.refs[1], t.refs[0]] else if IsFwd(t) then [] else t.refs
  }

  lemma VisitedInRange(g: BtfGraph, i: nat)
    requires WellFormed(g) && Layouts(g) && i < |g|
    ensures forall j :: 0 <= j < |Visited(g[i])| ==> Visited(g[i])[j] < |g|
  {
  }

  lemma VisitedLength(t1: BtfType, t2: BtfType)
    requires Layout(t1) && Layout(t2) && (t1.sig.info == t2.sig.info || (IsEnum(t1) && IsEnum(t2)))
    ensures |Visited(t1)| == |Visited(t2)|
  {
  }

  /** The references followed are references at the same places. */
  lemma VisitedPairs(tc: BtfType, tk: BtfType)
    requires Layout(tc) && Layout(tk) && Kind(tc) == Kind(tk) && |Visited(tc)| == |Visited(tk)|
    ensures forall j :: 0 <= j < |Visited(tc)| ==> IsChildPair(tc, tk, Visited(tc)[j], Visited(tk)[j])
  {
    forall j | 0 <= j < |Visited(tc)| ensures IsChildPair(tc, tk, Visited(tc)[j], Visited(tk)[j]) {
      var i := if Kind(tc) == KIND_ARRAY then 1 - j else j;
      assert tc.refs[i] == Visited(tc)[j] && tk.refs[i] == Visited(tk)[j];
    }
  }

  lemma {:induction false} PairNowClosed(g: BtfGraph, m: seq<nat>, hyp: seq<nat>, k: nat, open: set<nat>,
                                         dontResolve: bool)
    requires |m| == |g| == |hyp| && Forest(m) && Layouts(g) && WellFormed(g) && k < |g| && hyp[k] < |g|
    requires LocallyCompatible(g[hyp[k]], g[k], dontResolve)
    requires g[hyp[k]].sig == g[k].sig ==> |Visited(g[hyp[k]])| == |Visited(g[k])|
    requires g[hyp[k]].sig == g[k].sig ==> AllSettled(g, m, hyp, Visited(g[hyp[k]]), Visited(g[k]))
    requires ClosedExcept(g, m, hyp, open + {k}, dontResolve)
    ensures ClosedExcept(g, m, hyp, open, dontResolve)
  {
    var tc, tk := g[hyp[k]], g[k];
    if tc.sig == tk.sig {
      forall j | 0 <= j < |tk.refs| && j < |tc.refs| ensures Settled(g, m, hyp, tc.refs[j], tk.refs[j]) {
        if Kind(tk) == KIND_ARRAY {
          assert tk.refs[j] == Visited(tk)[1 - j] && tc.refs[j] == Visited(tc)[1 - j];
        } else if !IsFwd(tk) {
          assert tk.refs[j] == Visited(tk)[j] && tc.refs[j] == Visited(tc)[j];
        }
      }
    }
    assert PairClosed(g, m, hyp, k, dontResolve);
  }
}
