/**
 The index of JITed line records: which records belong to which function of a program, and the
 lookup of the record for an address.
 */
module LineInfo {
  import opened Common
  import opened Powers

  // ----- what a dissection is

  /** No record strictly between `lo` and `hi` has this address. */
  predicate NoneBetween(lin: seq<u64>, key: u64, lo: nat, hi: nat)
    requires hi <= |lin|
  {
    forall j :: lo < j < hi ==> lin[j] != key
  }

  /** Addresses strictly increase from record `lo` up to but excluding `hi`. */
  predicate Rising(lin: seq<u64>, lo: nat, hi: nat)
    requires hi <= |lin|
  {
    forall j :: lo < j < hi ==> lin[j - 1] < lin[j]
  }

  /** The sanity check on a function's last record, in 64-bit arithmetic. */
  predicate LastFits(last: u64, ksym: u64, len: u32) {
    (last - ksym + 1) % TWO64 <= len
  }

  /** Function `g - 1` takes the records from `lo` up to but excluding `hi`, where function `g` starts. */
  predicate Run(lin: seq<u64>, ksyms: seq<u64>, lens: seq<u32>, g: nat, lo: nat, hi: nat)
    requires |lens| == |ksyms| && 0 < g < |ksyms|
  {
    && lo < hi < |lin|
    && lin[hi] == ksyms[g] && NoneBetween(lin, ksyms[g], lo, hi)
    && Rising(lin, lo, hi)
    && LastFits(lin[hi - 1], ksyms[g - 1], lens[g - 1])
  }

  predicate RunAt(lin: seq<u64>, ksyms: seq<u64>, lens: seq<u32>, starts: seq<nat>, g: nat)
    requires |lens| == |ksyms| && 0 < g < |starts| <= |ksyms|
  {
    Run(lin, ksyms, lens, g, starts[g - 1], starts[g])
  }

  /** The first functions' starts: every function but the last found is a checked run. */
  ghost predicate Prefix(lin: seq<u64>, ksyms: seq<u64>, lens: seq<u32>, starts: seq<nat>) {
    && |lens| == |ksyms| && 0 < |starts| <= |ksyms|
    && 0 < |lin| && starts[0] == 0 && lin[0] == ksyms[0]
    && forall g :: 0 < g < |starts| ==> RunAt(lin, ksyms, lens, starts, g)
  }

  /** The starts of all functions. */
  ghost predicate Dissection(lin: seq<u64>, ksyms: seq<u64>, lens: seq<u32>, starts: seq<nat>) {
    Prefix(lin, ksyms, lens, starts) && |starts| == |ksyms|
  }

  /** The end of a function's records. */
  function EndOf(n: nat, starts: seq<nat>, g: nat): nat
    requires g < |starts|
  {
    if g + 1 < |starts| then starts[g + 1] else n
  }

  lemma {:induction false} StartsIncrease(lin: seq<u64>, ksyms: seq<u64>, lens: seq<u32>, starts: seq<nat>, g: nat,
                                          h: nat)
    requires Prefix(lin, ksyms, lens, starts) && g <= h < |starts|
    ensures starts[g] <= starts[h] < |lin| && (g < h ==> starts[g] < starts[h])
    decreases h
  {
    if h > 0 {
      assert RunAt(lin, ksyms, lens, starts, h);
      if g < h { StartsIncrease(lin, ksyms, lens, starts, g, h - 1); }
    }
  }

  /** Two dissections agree: a function starts at the first record after the previous start that
      has its address. */
  lemma {:induction false} StartsUnique(lin: seq<u64>, ksyms: seq<u64>, lens: seq<u32>, a: seq<nat>, b: seq<nat>,
                                        g: nat)
    requires Prefix(lin, ksyms, lens, a) && Prefix(lin, ksyms, lens, b) && g < |a| && g < |b|
    ensures a[g] == b[g]
  {
    if g > 0 {
      StartsUnique(lin, ksyms, lens, a, b, g - 1);
      assert RunAt(lin, ksyms, lens, a, g) && RunAt(lin, ksyms, lens, b, g);
    }
  }

  /** The function of record `j`, from function `g` down. */
  function Owner(starts: seq<nat>, j: nat, g: nat): (f: nat)
    requires g < |starts| && starts[0] == 0
    ensures f <= g && starts[f] <= j && (f < g ==> j < starts[f + 1])
  {
    if starts[g] <= j then g else Owner(starts, j, g - 1)
  }

  /** Every record belongs to exactly one function. */
  lemma RunsPartition(lin: seq<u64>, ksyms: seq<u64>, lens: seq<u32>, starts: seq<nat>, j: nat, f: nat)
    requires Dissection(lin, ksyms, lens, starts) && j < |lin| && f < |starts|
    ensures starts[f] <= j < EndOf(|lin|, starts, f) <==> f == Owner(starts, j, |starts| - 1)
  {
    var o := Owner(starts, j, |starts| - 1);
    if f < o { StartsIncrease(lin, ksyms, lens, starts, f + 1, o); }
    if o < f { StartsIncrease(lin, ksyms, lens, starts, o + 1, f); }
  }

  /** Every function's run begins at its symbol's address and is not empty. */
  lemma RunsBeginAtSymbols(lin: seq<u64>, ksyms: seq<u64>, lens: seq<u32>, starts: seq<nat>, f: nat)
    requires Dissection(lin, ksyms, lens, starts) && f < |starts|
    ensures starts[f] < EndOf(|lin|, starts, f) <= |lin| && lin[starts[f]] == ksyms[f]
  {
    StartsIncrease(lin, ksyms, lens, starts, 0, f);
    if f + 1 < |starts| { StartsIncrease(lin, ksyms, lens, starts, f, f + 1); }
    if f > 0 { assert RunAt(lin, ksyms, lens, starts, f); }
  }

  lemma {:induction false} RisingOrder(lin: seq<u64>, lo: nat, hi: nat, i: nat, j: nat)
    requires hi <= |lin| && Rising(lin, lo, hi) && lo <= i <= j < hi
    ensures lin[i] <= lin[j] && (i < j ==> lin[i] < lin[j])
    decreases j
  {
    if i < j { RisingOrder(lin, lo, hi, i, j - 1); }
  }

  /** All of a function's addresses lie within its length, in every function but the last. The one
      exception is a function at address 0 with a record at the greatest 64-bit address, where the
      check's arithmetic wraps around. */
  lemma {:induction false} WithinLengthIff(lin: seq<u64>, ksyms: seq<u64>, lens: seq<u32>, starts: seq<nat>, f: nat)
    requires Dissection(lin, ksyms, lens, starts) && f + 1 < |starts|
    ensures starts[f + 1] <= |lin| && 0 < starts[f + 1]
    ensures (forall j :: starts[f] <= j < starts[f + 1] ==> ksyms[f] <= lin[j] < ksyms[f] + lens[f])
            <==> !(ksyms[f] == 0 && lin[starts[f + 1] - 1] == TWO64 - 1)
  {
    RunsBeginAtSymbols(lin, ksyms, lens, starts, f);
    assert RunAt(lin, ksyms, lens, starts, f + 1);
    var lo, hi := starts[f], starts[f + 1];
    RisingOrder(lin, lo, hi, lo, hi - 1);
    CheckMeans(lin[hi - 1], ksyms[f], lens[f]);
    forall j | lo <= j < hi ensures ksyms[f] <= lin[j] <= lin[hi - 1] {
      RisingOrder(lin, lo, hi, lo, j);
      RisingOrder(lin, lo, hi, j, hi - 1);
    }
  }

  lemma CheckMeans(last: u64, ksym: u64, len: u32)
    requires ksym <= last
    ensures LastFits(last, ksym, len) <==> last < ksym + len || (ksym == 0 && last == TWO64 - 1)
  {
    if ksym == 0 && last == TWO64 - 1 {
      ModUnique(TWO64, TWO64, 1, 0);
    } else {
      ModUnique(last - ksym + 1, TWO64, 0, last - ksym + 1);
    }
  }

  /** Such a dissection exists: the second record is far outside a function of length 1. */
  lemma LengthCheckCanWrap()
    ensures var lin, ksyms, lens, starts := [0, TWO64 - 1, 5], [0, 5], [1, 1], [0, 2];
            Dissection(lin, ksyms, lens, starts) && starts[0] <= 1 < starts[1] && lin[1] >= ksyms[0] + lens[0]
  {
    var lin: seq<u64>, ksyms: seq<u64>, lens: seq<u32>, starts: seq<nat> := [0, TWO64 - 1, 5], [0, 5], [1, 1], [0, 2];
    CheckMeans(lin[1], ksyms[0], lens[0]);
    assert RunAt(lin, ksyms, lens, starts, 1);
  }

  // ----- building the index

  /** Where the search stands: starts found so far, records up to `i` seen, none of them the start
      of the next function, and rising since the last start. */
  ghost predicate Searching(lin: seq<u64>, ksyms: seq<u64>, lens: seq<u32>, starts: seq<nat>, i: nat) {
    && Prefix(lin, ksyms, lens, starts)
    && starts[|starts| - 1] < i <= |lin|
    && (|starts| < |ksyms| ==> NoneBetween(lin, ksyms[|starts|], starts[|starts| - 1], i)
                               && Rising(lin, starts[|starts| - 1], i))
  }

  /** Any dissection extends the starts found so far, and has its next start not before `i`. */
  lemma DissectionExtends(lin: seq<u64>, ksyms: seq<u64>, lens: seq<u32>, starts: seq<nat>, i: nat, d: seq<nat>)
    requires Searching(lin, ksyms, lens, starts, i) && Dissection(lin, ksyms, lens, d) && |starts| < |ksyms|
    ensures i <= d[|starts|] < |lin| && d[|starts| - 1] == starts[|starts| - 1]
    ensures RunAt(lin, ksyms, lens, d, |starts|)
  {
    StartsUnique(lin, ksyms, lens, starts, d, |starts| - 1);
    assert RunAt(lin, ksyms, lens, d, |starts|);
  }

  /** The search fails for good when all records are seen, when the next function's first record
      follows one out of its function's length, or when an address does not rise. */
  lemma SearchFails(lin: seq<u64>, ksyms: seq<u64>, lens: seq<u32>, starts: seq<nat>, i: nat)
    requires Searching(lin, ksyms, lens, starts, i) && |starts| < |ksyms|
    requires || i == |lin|
             || (lin[i] == ksyms[|starts|] && !LastFits(lin[i - 1], ksyms[|starts| - 1], lens[|starts| - 1]))
             || (lin[i] != ksyms[|starts|] && lin[i] <= lin[i - 1])
    ensures !exists d :: Dissection(lin, ksyms, lens, d)
  {
    forall d | Dissection(lin, ksyms, lens, d) ensures false {
      DissectionExtends(lin, ksyms, lens, starts, i, d);
    }
  }

  lemma SearchFinds(lin: seq<u64>, ksyms: seq<u64>, lens: seq<u32>, starts: seq<nat>, i: nat)
    requires Searching(lin, ksyms, lens, starts, i) && |starts| < |ksyms| && i < |lin|
    requires lin[i] == ksyms[|starts|] && LastFits(lin[i - 1], ksyms[|starts| - 1], lens[|starts| - 1])
    ensures Searching(lin, ksyms, lens, starts + [i], i + 1)
  {
    var more := starts + [i];
    forall g | 0 < g < |more| ensures RunAt(lin, ksyms, lens, more, g) {
      if g < |starts| { assert RunAt(lin, ksyms, lens, starts, g); }
    }
  }

  lemma SearchSkips(lin: seq<u64>, ksyms: seq<u64>, lens: seq<u32>, starts: seq<nat>, i: nat)
    requires Searching(lin, ksyms, lens, starts, i) && |starts| < |ksyms| && i < |lin|
    requires lin[i] != ksyms[|starts|] && lin[i] > lin[i - 1]
    ensures Searching(lin, ksyms, lens, starts, i + 1)
  {
  }

  /** The counts of the functions whose end is known. */
  ghost predicate CountsOf(starts: seq<nat>, counts: seq<nat>, k: nat) {
    k < |starts| <= |counts| && forall g :: 0 <= g < k ==> starts[g] + counts[g] == starts[g + 1]
  }

  class ProgLinfo {
    /** The addresses of the JITed line records. */
    const jited: seq<u64>
    const nrFuncs: nat
    const funcIdx: array<nat>
    const nrPerFunc: array<nat>

    ghost predicate Valid()
      reads this
    {
      && |jited| > 0 && nrFuncs > 0
      && funcIdx.Length == nrFuncs && nrPerFunc.Length == nrFuncs && funcIdx != nrPerFunc
    }

    constructor (jited: seq<u64>, nrFuncs: nat)
      requires |jited| > 0 && nrFuncs > 0
      ensures Valid() && fresh(funcIdx) && fresh(nrPerFunc)
      ensures this.jited == jited && this.nrFuncs == nrFuncs
    {
      this.jited := jited;
      this.nrFuncs := nrFuncs;
      funcIdx := new nat[nrFuncs];
      nrPerFunc := new nat[nrFuncs];
    }

    /** The arrays describe the functions' runs. */
    ghost predicate Indexed(ksyms: seq<u64>, lens: seq<u32>)
      reads this, funcIdx, nrPerFunc
    {
      && Valid()
      && Dissection(jited, ksyms, lens, funcIdx[..])
      && forall g :: 0 <= g < nrFuncs ==> nrPerFunc[g] == EndOf(|jited|, funcIdx[..], g) - funcIdx[g]
    }

    /** `dissect_jited_func`: it fills the index exactly when the records can be dissected. */
    method Dissect(ksyms: seq<u64>, lens: seq<u32>) returns (ok: bool)
      requires Valid() && |ksyms| == |lens| == nrFuncs
      modifies funcIdx, nrPerFunc
      ensures ok <==> exists d :: Dissection(jited, ksyms, lens, d)
      ensures ok ==> Indexed(ksyms, lens)
    {
      if ksyms[0] != jited[0] { return false; }
      funcIdx[0] := 0;
      var prev, i, f := 0, 1, 1;
      assert funcIdx[..1] == [0];
      while i < |jited| && f < nrFuncs
        invariant 0 < f <= nrFuncs && prev == funcIdx[f - 1]
        invariant Searching(jited, ksyms, lens, funcIdx[..f], i)
        invariant CountsOf(funcIdx[..f], nrPerFunc[..], f - 1)
        decreases |jited| - i
      {
        ghost var starts := funcIdx[..f];
        if ksyms[f] == jited[i] {
          funcIdx[f] := i;
          assert funcIdx[..f] == starts && funcIdx[..f + 1] == starts + [i];
          if (jited[i - 1] - ksyms[f - 1] + 1) % TWO64 > lens[f - 1] {
            SearchFails(jited, ksyms, lens, starts, i);
            return false;
          }
          SearchFinds(jited, ksyms, lens, starts, i);
          nrPerFunc[f - 1] := i - prev;
          prev := i;
          f := f + 1;
        } else if jited[i] <= jited[i - 1] {
          SearchFails(jited, ksyms, lens, starts, i);
          return false;
        } else {
          SearchSkips(jited, ksyms, lens, starts, i);
        }
        i := i + 1;
      }
      if f != nrFuncs {
        SearchFails(jited, ksyms, lens, funcIdx[..f], i);
        return false;
      }
      assert funcIdx[..f] == funcIdx[..];
      ghost var counts := nrPerFunc[..];
      nrPerFunc[nrFuncs - 1] := |jited| - prev;
      forall g | 0 <= g < nrFuncs ensures nrPerFunc[g] == EndOf(|jited|, funcIdx[..], g) - funcIdx[g] {
        if g < nrFuncs - 1 { assert nrPerFunc[g] == counts[g] && funcIdx[..][g + 1] == funcIdx[g + 1]; }
      }
      assert Dissection(jited, ksyms, lens, funcIdx[..]);
      return true;
    }

    /** `bpf_prog_linfo__lfind_addr_func`: the index of a line record for the address. */
    method LfindAddrFunc(addr: u64, f: nat, nrSkip: nat, ghost ksyms: seq<u64>, ghost lens: seq<u32>)
      returns (r: Option<nat>)
      requires Indexed(ksyms, lens)
      ensures f >= nrFuncs || nrSkip >= nrPerFunc[f] ==> r == None
      ensures f < nrFuncs && nrSkip < nrPerFunc[f] ==>
                Answers(jited, funcIdx[f] + nrSkip, funcIdx[f] + nrPerFunc[f], addr, r)
    {
      if f >= nrFuncs { return None; }
      var n := nrPerFunc[f];
      if nrSkip >= n { return None; }
      RunsBeginAtSymbols(jited, ksyms, lens, funcIdx[..], f);
      r := Lookup(jited, funcIdx[f] + nrSkip, n - nrSkip, addr);
    }
  }

  /** The lookup among `n` records from `start` on. */
  method Lookup(lin: seq<u64>, start: nat, n: nat, addr: u64) returns (r: Option<nat>)
    requires 0 < n && start + n <= |lin|
    ensures Answers(lin, start, start + n, addr, r)
  {
    if addr < lin[start] { return None; }
    var i := Scan(lin, start, n, addr);
    return Some(start + i - 1);
  }

  /** The search loop of the lookup: how many of the `n` records from `start` on come before the
      first whose address exceeds the query. */
  method Scan(lin: seq<u64>, start: nat, n: nat, addr: u64) returns (i: nat)
    requires start + n <= |lin|
    ensures i <= n && (i < n ==> addr < lin[start + i])
    ensures forall j :: start <= j < start + i ==> lin[j] <= addr
  {
    i := 0;
    while i < n
      invariant 0 <= i <= n
      invariant forall j :: start <= j < start + i ==> lin[j] <= addr
    {
      if addr < lin[start + i] { break; }
      i := i + 1;
    }
  }

  // ----- what the lookup finds

  /** The lookup among the records from `lo` up to but excluding `hi`: the last of the leading
      records whose addresses do not exceed the query. */
  ghost predicate Answers(lin: seq<u64>, lo: nat, hi: nat, addr: u64, r: Option<nat>) {
    && lo < hi <= |lin|
    && match r
       case None => addr < lin[lo]
       case Some(k) =>
         && lo <= k < hi
         && (forall j :: lo <= j <= k ==> lin[j] <= addr)
         && (k + 1 < hi ==> addr < lin[k + 1])
  }

  /** The right answer: it separates the records not above the query from those above it. */
  ghost predicate Right(lin: seq<u64>, lo: nat, hi: nat, addr: u64, r: Option<nat>) {
    && lo < hi <= |lin|
    && match r
       case None => forall j :: lo <= j < hi ==> addr < lin[j]
       case Some(k) => lo <= k < hi && forall j :: lo <= j < hi ==> (lin[j] <= addr <==> j <= k)
  }

  /** Addresses never fall. */
  predicate Ascending(lin: seq<u64>, lo: nat, hi: nat)
    requires hi <= |lin|
  {
    forall j :: lo < j < hi ==> lin[j - 1] <= lin[j]
  }

  lemma {:induction false} AscendingOrder(lin: seq<u64>, lo: nat, hi: nat, i: nat, j: nat)
    requires hi <= |lin| && Ascending(lin, lo, hi) && lo <= i <= j < hi
    ensures lin[i] <= lin[j]
    decreases j
  {
    if i < j { AscendingOrder(lin, lo, hi, i, j - 1); }
  }

  lemma AscendingIsRight(lin: seq<u64>, lo: nat, hi: nat, addr: u64, r: Option<nat>)
    requires Answers(lin, lo, hi, addr, r) && Ascending(lin, lo, hi)
    ensures Right(lin, lo, hi, addr, r)
  {
    if r.None? {
      forall j | lo <= j < hi ensures addr < lin[j] { AscendingOrder(lin, lo, hi, lo, j); }
    } else {
      forall j | lo <= j < hi ensures lin[j] <= addr <==> j <= r.value {
        if j > r.value { AscendingOrder(lin, lo, hi, r.value + 1, j); }
      }
    }
  }

  /** In every function but the last the lookup is right, and the record it finds has the one
      greatest address not above the query. */
  lemma FindsGreatest(lin: seq<u64>, ksyms: seq<u64>, lens: seq<u32>, starts: seq<nat>, f: nat, skip: nat, addr: u64,
                      r: Option<nat>)
    requires Dissection(lin, ksyms, lens, starts) && f + 1 < |starts|
    requires Answers(lin, starts[f] + skip, starts[f + 1], addr, r)
    ensures Right(lin, starts[f] + skip, starts[f + 1], addr, r)
    ensures r.Some? ==> r.value < |lin| && lin[r.value] <= addr
    ensures r.Some? ==> forall j :: starts[f] + skip <= j < starts[f + 1] && lin[j] <= addr && j != r.value ==>
              lin[j] < lin[r.value]
  {
    assert RunAt(lin, ksyms, lens, starts, f + 1);
    var lo, hi := starts[f], starts[f + 1];
    AscendingIsRight(lin, lo + skip, hi, addr, r);
    if r.Some? {
      forall j | lo + skip <= j < hi && lin[j] <= addr && j != r.value ensures lin[j] < lin[r.value] {
        RisingOrder(lin, lo, hi, j, r.value);
      }
    }
  }

  /** The first record from `i` on whose address exceeds the query, or `hi`. */
  ghost function FirstAbove(lin: seq<u64>, i: nat, hi: nat, addr: u64): (k: nat)
    requires i <= hi <= |lin|
    ensures i <= k <= hi && (k < hi ==> addr < lin[k])
    ensures forall j :: i <= j < k ==> lin[j] <= addr
    decreases hi - i
  {
    if i == hi || addr < lin[i] then i else FirstAbove(lin, i + 1, hi, addr)
  }

  /** The last function's records are not checked. Its lookups are right for every address exactly
      when its addresses never fall. */
  lemma AlwaysRightIff(lin: seq<u64>, lo: nat, hi: nat)
    requires lo < hi <= |lin|
    ensures (forall addr: u64, r :: Answers(lin, lo, hi, addr, r) ==> Right(lin, lo, hi, addr, r))
            <==> Ascending(lin, lo, hi)
  {
    if Ascending(lin, lo, hi) {
      forall addr: u64, r | Answers(lin, lo, hi, addr, r) ensures Right(lin, lo, hi, addr, r) {
        AscendingIsRight(lin, lo, hi, addr, r);
      }
    } else {
      var j :| lo < j < hi && lin[j - 1] > lin[j];
      var k := FirstAbove(lin, lo, hi, lin[j]);
      var r := if k == lo then None else Some(k - 1);
      assert Answers(lin, lo, hi, lin[j], r) && !Right(lin, lo, hi, lin[j], r);
    }
  }

  /** A dissection whose last function makes a lookup miss: the record at address 4 is not found. */
  lemma LastFunctionCanMiss()
    ensures Dissection([1, 9, 4], [1], [16], [0])
    ensures Answers([1, 9, 4], 0, 3, 4, Some(0)) && !Right([1, 9, 4], 0, 3, 4, Some(0))
  {
    var lin: seq<u64> := [1, 9, 4];
    assert lin[2] <= 4;
  }
}
