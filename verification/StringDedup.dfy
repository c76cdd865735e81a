/**
 Pass 1 of BTF deduplication: the string section.

 The section is a sequence of bytes holding NUL-terminated strings one after the
 other; a string is referred to by the offset of its first byte.  The pass indexes
 all strings, marks the referenced ones, sorts by content to find equal strings,
 emits each used string once, sorts back by offset and rewrites the references.
 */
module StringDedup {
  import opened Common

  type Bytes = seq<nat>

  /** A parsed string section: it starts with the empty string and ends with a NUL. */
  predicate Section(data: Bytes) {
    |data| > 0 && data[0] == 0 && data[|data| - 1] == 0
  }

  /** The position of the NUL that ends the string at `off`. */
  function StrEnd(data: Bytes, off: nat): (e: nat)
    requires |data| > 0 && data[|data| - 1] == 0 && off < |data|
    ensures off <= e < |data| && data[e] == 0
    ensures forall i :: off <= i < e ==> data[i] != 0
    decreases |data| - off
  {
    if data[off] == 0 then off else StrEnd(data, off + 1)
  }

  /** The string at `off`. */
  function StrAt(data: Bytes, off: nat): Bytes
    requires |data| > 0 && data[|data| - 1] == 0 && off < |data|
  {
    data[off..StrEnd(data, off)]
  }

  /** A string stored somewhere is the string found there. */
  lemma StoredStringFound(data: Bytes, off: nat, c: Bytes)
    requires |data| > 0 && data[|data| - 1] == 0 && off + |c| < |data|
    requires data[off..off + |c|] == c && data[off + |c|] == 0
    requires forall i :: 0 <= i < |c| ==> c[i] != 0
    ensures StrAt(data, off) == c
  {
    var e := StrEnd(data, off);
    assert forall i :: off <= i < off + |c| ==> data[i] == c[i - off];
    assert e == off + |c|;
  }

  /** `off` is the first byte of a string of the section. */
  predicate IsStart(data: Bytes, off: nat) {
    off < |data| && (off == 0 || data[off - 1] == 0)
  }

  datatype StrPtr = StrPtr(str: nat, newOff: nat, used: bool)

  // ----- comparing strings

  /** strcmp(a, b) <= 0. */
  predicate Leq(a: Bytes, b: Bytes) {
    a == [] || (b != [] && (a[0] < b[0] || (a[0] == b[0] && Leq(a[1..], b[1..]))))
  }

  lemma {:induction false} LeqTotal(a: Bytes, b: Bytes)
    ensures Leq(a, b) || Leq(b, a)
    ensures Leq(a, b) && Leq(b, a) ==> a == b
    decreases |a|
  {
    if a != [] && b != [] {
      LeqTotal(a[1..], b[1..]);
      if a[0] == b[0] && a[1..] == b[1..] { assert a == [a[0]] + a[1..] && b == [b[0]] + b[1..]; }
    }
  }

  lemma {:induction false} LeqTrans(a: Bytes, b: Bytes, c: Bytes)
    requires Leq(a, b) && Leq(b, c)
    ensures Leq(a, c)
    decreases |a|
  {
    if a != [] && a[0] == b[0] == c[0] { LeqTrans(a[1..], b[1..], c[1..]); }
  }

  lemma {:induction false} LeqRefl(a: Bytes)
    ensures Leq(a, a)
    decreases |a|
  {
    if a != [] { LeqRefl(a[1..]); }
  }

  predicate SortedByOffset(ptrs: seq<StrPtr>) {
    forall i, j :: 0 <= i < j < |ptrs| ==> ptrs[i].str < ptrs[j].str
  }

  /** The bytes the first `n` strings take, with their NULs. */
  ghost function Bulk(c: seq<Bytes>, n: nat): nat
    requires n <= |c|
  {
    if n == 0 then 0 else Bulk(c, n - 1) + |c[n - 1]| + 1
  }

  lemma {:induction false} BulkMonotone(c: seq<Bytes>, m: nat, n: nat)
    requires m <= n <= |c|
    ensures Bulk(c, m) <= Bulk(c, n)
    decreases n
  {
    if m < n { BulkMonotone(c, m, n - 1); }
  }

  /** The bytes the string pointed to takes. */
  ghost function RoomAt(data: Bytes): StrPtr -> nat {
    (p: StrPtr) => |Text(data, p.str)| + 1
  }

  lemma {:induction false} RoomOfTexts(data: Bytes, s: seq<StrPtr>, c: seq<Bytes>, n: nat)
    requires n <= |s| == |c| && forall i :: 0 <= i < n ==> c[i] == Text(data, s[i].str)
    ensures Bulk(c, n) == Total(RoomAt(data), s, n)
    decreases n
  {
    if n > 0 {
      RoomOfTexts(data, s, c, n - 1);
      assert RoomAt(data)(s[n - 1]) == |c[n - 1]| + 1;
    }
  }

  // ----- building the index

  /** The index holds every string start once, in increasing order. */
  ghost predicate IndexOf(data: Bytes, ptrs: seq<StrPtr>) {
    && SortedByOffset(ptrs)
    && (forall i :: 0 <= i < |ptrs| ==> IsStart(data, ptrs[i].str))
    && (forall off: nat :: IsStart(data, off) ==> exists i :: 0 <= i < |ptrs| && ptrs[i].str == off)
  }

  /** The strings before `p` are indexed, and take up everything before `p`. */
  ghost predicate IndexedUpTo(data: Bytes, ptrs: seq<StrPtr>, p: nat) {
    && p <= |data| && (p == |data| || IsStart(data, p)) && SortedByOffset(ptrs)
    && (forall i :: 0 <= i < |ptrs| ==> IsStart(data, ptrs[i].str) && ptrs[i].str < p && !ptrs[i].used)
    && (forall off: nat :: IsStart(data, off) && off < p ==> exists i :: 0 <= i < |ptrs| && ptrs[i].str == off)
    && (p > 0 ==> |ptrs| > 0 && ptrs[0].str == 0)
  }

  lemma {:induction false} IndexStep(data: Bytes, ptrs: seq<StrPtr>, p: nat)
    requires Section(data) && IndexedUpTo(data, ptrs, p) && p < |data|
    ensures IndexedUpTo(data, ptrs + [StrPtr(p, 0, false)], StrEnd(data, p) + 1)
  {
    IndexGrows(data, ptrs, ptrs + [StrPtr(p, 0, false)], p, StrEnd(data, p));
  }

  lemma {:induction false} RoomStep(data: Bytes, ptrs: seq<StrPtr>, p: nat)
    requires Section(data) && p < |data| && Total(RoomAt(data), ptrs, |ptrs|) == p
    ensures var ptrs' := ptrs + [StrPtr(p, 0, false)];
            Total(RoomAt(data), ptrs', |ptrs'|) == StrEnd(data, p) + 1
  {
    TotalPush(RoomAt(data), ptrs, StrPtr(p, 0, false));
    TextLength(data, p);
  }

  /** The state of the loop that builds the index. */
  ghost predicate IndexProgress(data: Bytes, ptrs: seq<StrPtr>, p: nat) {
    Section(data) && IndexedUpTo(data, ptrs, p) && Total(RoomAt(data), ptrs, |ptrs|) == p
  }

  lemma {:induction false} IndexNext(data: Bytes, ptrs: seq<StrPtr>, p: nat)
    requires IndexProgress(data, ptrs, p) && p < |data|
    ensures IndexProgress(data, ptrs + [StrPtr(p, 0, false)], StrEnd(data, p) + 1)
  {
    IndexStep(data, ptrs, p);
    RoomStep(data, ptrs, p);
  }

  lemma {:induction false} IndexDone(data: Bytes, ptrs: seq<StrPtr>)
    requires IndexProgress(data, ptrs, |data|)
    ensures IndexOf(data, ptrs) && |ptrs| > 0 && ptrs[0].str == 0
    ensures forall i :: 0 <= i < |ptrs| ==> !ptrs[i].used
    ensures Total(RoomAt(data), ptrs, |ptrs|) == |data|
  {
  }

  lemma TextLength(data: Bytes, p: nat)
    requires Section(data) && p < |data|
    ensures |Text(data, p)| == StrEnd(data, p) - p
  {
  }

  /** The first loop of `btf_dedup_strings`: one pointer per string, or ENOMEM. With `memory` every
      allocation is granted, otherwise any of them may fail. */
  method BuildIndex(data: Bytes, memory: bool) returns (err: int, ptrs: seq<StrPtr>)
    requires Section(data)
    ensures err == OK || (err == ENOMEM && !memory)
    ensures err == OK ==> IndexOf(data, ptrs) && |ptrs| > 0 && ptrs[0].str == 0
    ensures err == OK ==> forall i :: 0 <= i < |ptrs| ==> !ptrs[i].used
    ensures err == OK ==> Total(RoomAt(data), ptrs, |ptrs|) == |data|
  {
    ptrs := [];
    var p := 0;
    while p < |data|
      invariant p <= |data| && IndexProgress(data, ptrs, p)
    {
      var granted: bool := *;
      if !memory && !granted { return ENOMEM, []; }
      IndexNext(data, ptrs, p);
      ptrs := ptrs + [StrPtr(p, 0, false)];
      p := StrEnd(data, p) + 1;
    }
    IndexDone(data, ptrs);
    return OK, ptrs;
  }

  lemma IndexGrows(data: Bytes, before: seq<StrPtr>, after: seq<StrPtr>, p: nat, e: nat)
    requires p <= e < |data| && after == before + [StrPtr(p, 0, false)]
    requires forall i :: p <= i < e ==> data[i] != 0
    requires forall off: nat :: IsStart(data, off) && off < p ==> exists i :: 0 <= i < |before| && before[i].str == off
    ensures forall off: nat :: IsStart(data, off) && off < e + 1 ==> exists i :: 0 <= i < |after| && after[i].str == off
  {
    forall off: nat | IsStart(data, off) && off < e + 1 ensures exists i :: 0 <= i < |after| && after[i].str == off {
      if off < p {
        var i :| 0 <= i < |before| && before[i].str == off;
        assert after[i].str == off;
      } else {
        assert off == p;
        assert after[|before|].str == off;
      }
    }
  }

  /** bsearch over pointers in offset order. */
  method Search(ptrs: seq<StrPtr>, off: nat) returns (found: bool, k: nat)
    requires forall i, j :: 0 <= i < j < |ptrs| ==> ptrs[i].str <= ptrs[j].str
    ensures found ==> k < |ptrs| && ptrs[k].str == off
    ensures !found ==> forall i :: 0 <= i < |ptrs| ==> ptrs[i].str != off
  {
    var lo, hi := 0, |ptrs|;
    while lo < hi
      invariant lo <= hi <= |ptrs|
      invariant forall i :: 0 <= i < lo ==> ptrs[i].str < off
      invariant forall i :: hi <= i < |ptrs| ==> off < ptrs[i].str
    {
      var mid := (lo + hi) / 2;
      if ptrs[mid].str == off {
        return true, mid;
      } else if ptrs[mid].str < off {
        lo := mid + 1;
      } else {
        hi := mid;
      }
    }
    return false, 0;
  }

  // ----- marking

  /** Only `used` flags may differ. */
  ghost predicate SameButUsed(a: seq<StrPtr>, b: seq<StrPtr>) {
    |a| == |b| && forall i :: 0 <= i < |a| ==> a[i].str == b[i].str && (a[i].used ==> b[i].used)
  }

  /** Pointers to any of the first `k` references are marked, and those references are valid. */
  ghost predicate MarkedUpTo(data: Bytes, ptrs: seq<StrPtr>, refs: seq<nat>, k: nat) {
    && k <= |refs|
    && (forall j :: 0 <= j < k ==> refs[j] == 0 || IsStart(data, refs[j]))
    && (forall i, j :: 0 <= i < |ptrs| && 0 <= j < k && refs[j] != 0 && ptrs[i].str == refs[j] ==> ptrs[i].used)
    && UsedOnlyBy(ptrs, refs[..k])
  }

  /** Only the pointers to given offsets and to 0 are marked. */
  ghost predicate UsedOnlyBy(ptrs: seq<StrPtr>, refs: seq<nat>) {
    forall i :: 0 <= i < |ptrs| && ptrs[i].used ==> ptrs[i].str == 0 || ptrs[i].str in refs
  }

  /** The walk with `btf_str_mark_as_used` over the visited references. */
  method MarkUsed(data: Bytes, ptrs0: seq<StrPtr>, refs: seq<nat>) returns (err: int, ptrs: seq<StrPtr>)
    requires IndexOf(data, ptrs0) && UsedOnlyBy(ptrs0, [])
    ensures SameButUsed(ptrs0, ptrs) && IndexOf(data, ptrs)
    ensures err == OK || err == EINVAL
    ensures err == OK <==> forall j :: 0 <= j < |refs| ==> refs[j] == 0 || IsStart(data, refs[j])
    ensures err == OK ==> MarkedUpTo(data, ptrs, refs, |refs|)
  {
    ptrs := ptrs0;
    for k := 0 to |refs|
      invariant SameButUsed(ptrs0, ptrs) && IndexOf(data, ptrs) && MarkedUpTo(data, ptrs, refs, k)
    {
      assert refs[..k + 1] == refs[..k] + [refs[k]];
      if refs[k] != 0 {
        var found, i := Search(ptrs, refs[k]);
        if !found {
          assert !IsStart(data, refs[k]);
          return EINVAL, ptrs;
        }
        MarkOne(data, ptrs, refs, k, i);
        ptrs := ptrs[i := ptrs[i].(used := true)];
      }
    }
    assert refs[..|refs|] == refs;
    return OK, ptrs;
  }

  lemma {:induction false} MarkOne(data: Bytes, ptrs: seq<StrPtr>, refs: seq<nat>, k: nat, i: nat)
    requires IndexOf(data, ptrs) && MarkedUpTo(data, ptrs, refs, k)
    requires k < |refs| && i < |ptrs| && ptrs[i].str == refs[k]
    ensures SameButUsed(ptrs, ptrs[i := ptrs[i].(used := true)])
    ensures IndexOf(data, ptrs[i := ptrs[i].(used := true)])
    ensures MarkedUpTo(data, ptrs[i := ptrs[i].(used := true)], refs, k + 1)
  {
    var after := ptrs[i := ptrs[i].(used := true)];
    SameButUsedIndex(data, ptrs, after);
    assert IsStart(data, ptrs[i].str);
    assert refs[..k + 1] == refs[..k] + [refs[k]];
    forall x, j | 0 <= x < |after| && 0 <= j < k + 1 && refs[j] != 0 && after[x].str == refs[j] ensures after[x].used {
      if x != i { assert ptrs[x] == after[x] && ptrs[x].str != ptrs[i].str; }
    }
  }

  lemma SameButUsedIndex(data: Bytes, a: seq<StrPtr>, b: seq<StrPtr>)
    requires IndexOf(data, a) && SameButUsed(a, b)
    ensures IndexOf(data, b)
  {
    forall off: nat | IsStart(data, off) ensures exists i :: 0 <= i < |b| && b[i].str == off {
      var i :| 0 <= i < |a| && a[i].str == off;
      assert b[i].str == off;
    }
  }

  // ----- sorting

  ghost predicate TotalPreorder<T(!new)>(le: (T, T) -> bool) {
    && (forall a, b :: le(a, b) || le(b, a))
    && (forall a, b, c :: le(a, b) && le(b, c) ==> le(a, c))
  }

  ghost predicate SortedBy<T>(s: seq<T>, le: (T, T) -> bool) {
    forall i, j :: 0 <= i < j < |s| ==> le(s[i], s[j])
  }

  /** qsort: some sorted arrangement of the elements; callers rely on nothing else. */
  method Qsort<T(!new)>(s: seq<T>, le: (T, T) -> bool) returns (t: seq<T>)
    requires TotalPreorder(le)
    ensures SortedBy(t, le) && multiset(t) == multiset(s) && |t| == |s|
  {
    t := [];
    for i := 0 to |s|
      invariant SortedBy(t, le) && multiset(t) == multiset(s[..i]) && |t| == i
    {
      t := InsertSorted(t, s[i], le);
      assert s[..i + 1] == s[..i] + [s[i]];
    }
    assert s[..|s|] == s;
  }

  method InsertSorted<T(!new)>(s: seq<T>, x: T, le: (T, T) -> bool) returns (t: seq<T>)
    requires TotalPreorder(le) && SortedBy(s, le)
    ensures SortedBy(t, le) && multiset(t) == multiset(s) + multiset{x} && |t| == |s| + 1
  {
    var i := 0;
    while i < |s| && le(s[i], x)
      invariant i <= |s| && forall k :: 0 <= k < i ==> le(s[k], x)
    {
      i := i + 1;
    }
    t := s[..i] + [x] + s[i..];
    InsertedSorted(s, i, x, le);
    assert s == s[..i] + s[i..];
    assert multiset(s) == multiset(s[..i]) + multiset(s[i..]);
  }

  lemma InsertedSorted<T(!new)>(s: seq<T>, i: nat, x: T, le: (T, T) -> bool)
    requires TotalPreorder(le) && SortedBy(s, le) && i <= |s|
    requires forall k :: 0 <= k < i ==> le(s[k], x)
    requires i < |s| ==> !le(s[i], x)
    ensures SortedBy(s[..i] + [x] + s[i..], le)
  {
    var t := s[..i] + [x] + s[i..];
    if i < |s| { assert le(x, s[i]); }
    forall k | i <= k < |s| ensures le(x, s[k]) {
      if k > i { assert le(s[i], s[k]); }
    }
    forall a, b | 0 <= a < b < |t| ensures le(t[a], t[b]) {
      var a', b' := if a < i then a else a - 1, if b < i then b else b - 1;
      assert a != i ==> t[a] == s[a'];
      assert b != i ==> t[b] == s[b'];
    }
  }

  lemma SameMembers<T>(s: seq<T>, t: seq<T>)
    requires multiset(s) == multiset(t)
    ensures |s| == |t| && forall x :: x in s <==> x in t
  {
    assert |multiset(s)| == |s| && |multiset(t)| == |t|;
    forall x ensures x in s <==> x in t {
      assert x in s <==> x in multiset(s);
      assert x in t <==> x in multiset(t);
    }
  }

  /** The string at `off`, or the empty string outside the section. */
  function Text(data: Bytes, off: nat): Bytes {
    if |data| > 0 && data[|data| - 1] == 0 && off < |data| then StrAt(data, off) else []
  }

  lemma TextHasNoNul(data: Bytes, off: nat)
    ensures forall i :: 0 <= i < |Text(data, off)| ==> Text(data, off)[i] != 0
  {
  }

  /** str_sort_by_content. */
  function ByContent(data: Bytes): (StrPtr, StrPtr) -> bool {
    (p: StrPtr, q: StrPtr) => Leq(Text(data, p.str), Text(data, q.str))
  }

  /** str_sort_by_offset. */
  function ByOffset(): (StrPtr, StrPtr) -> bool {
    (p: StrPtr, q: StrPtr) => p.str <= q.str
  }

  lemma ByContentPreorder(data: Bytes)
    ensures TotalPreorder(ByContent(data))
  {
    var le := ByContent(data);
    forall a, b ensures le(a, b) || le(b, a) { LeqTotal(Text(data, a.str), Text(data, b.str)); }
    forall a, b, c | le(a, b) && le(b, c) ensures le(a, c) {
      LeqTrans(Text(data, a.str), Text(data, b.str), Text(data, c.str));
    }
  }

  // ----- emitting each used string once

  /** The output holds `c`, NUL-terminated, at `off`. */
  predicate StoredAt(out: Bytes, off: nat, c: Bytes) {
    off + |c| < |out| && out[off..off + |c|] == c && out[off + |c|] == 0
  }

  lemma StoredStays(out: Bytes, more: Bytes, off: nat, c: Bytes)
    requires StoredAt(out, off, c)
    ensures StoredAt(out + more, off, c)
  {
    assert (out + more)[off..off + |c|] == out[off..off + |c|];
  }

  /** The contents of the strings pointed to. */
  ghost function Texts(data: Bytes, s: seq<StrPtr>): (c: seq<Bytes>)
    ensures |c| == |s| && forall i :: 0 <= i < |s| ==> c[i] == Text(data, s[i].str)
  {
    seq(|s|, i requires 0 <= i < |s| => Text(data, s[i].str))
  }

  ghost predicate SortedTexts(c: seq<Bytes>) {
    forall i, j :: 0 <= i < j < |c| ==> Leq(c[i], c[j])
  }

  /** What the emitted part of the pointers, with contents `c`, means: used strings are stored where
      their new offset says, and share a new offset exactly when they are equal. */
  ghost predicate Emitted(c: seq<Bytes>, s: seq<StrPtr>, out: Bytes, n: nat) {
    && n <= |s| == |c|
    && (forall j :: 0 <= j < n && s[j].used ==> StoredAt(out, s[j].newOff, c[j]))
    && (forall j, k :: 0 <= j < n && 0 <= k < n && s[j].used && s[k].used ==>
         (s[j].newOff == s[k].newOff <==> c[j] == c[k]))
    && (forall j :: 0 <= j < n && s[j].used && c[j] == [] ==> s[j].newOff == 0)
  }

  /** The new offsets of `s[lo..hi]` set to `off`. */
  function SetOffsets(s: seq<StrPtr>, lo: nat, hi: nat, off: nat): (t: seq<StrPtr>)
    requires lo <= hi <= |s|
    ensures |t| == |s|
    ensures forall i :: 0 <= i < |s| ==> t[i] == if lo <= i < hi then s[i].(newOff := off) else s[i]
  {
    seq(|s|, i requires 0 <= i < |s| => if lo <= i < hi then s[i].(newOff := off) else s[i])
  }

  /** The output holds used strings and nothing else, in the order of their pointers. */
  ghost predicate Arranged(s: seq<StrPtr>, out: Bytes, n: nat) {
    && n <= |s|
    && (forall p: nat :: IsStart(out, p) ==> HasPointer(s, n, p))
    && (forall j, k :: 0 <= j <= k < n && s[j].used && s[k].used ==> s[j].newOff <= s[k].newOff)
    && (forall j :: 0 <= j < n && s[j].used ==> s[j].newOff < |out|)
  }

  /** One of the first `n` pointers is used and has new offset `p`. */
  ghost predicate HasPointer(s: seq<StrPtr>, n: nat, p: nat) {
    exists j :: 0 <= j < n && j < |s| && s[j].used && s[j].newOff == p
  }

  ghost predicate NoNuls(c: seq<Bytes>) {
    forall i :: 0 <= i < |c| ==> NoNul(c[i])
  }

  ghost predicate NoNul(t: Bytes) {
    forall i :: 0 <= i < |t| ==> t[i] != 0
  }

  lemma {:induction false} StartsAppended(out: Bytes, t: Bytes, p: nat)
    requires NoNul(t) && IsStart(out + t + [0], p)
    ensures p == |out| || IsStart(out, p)
  {
  }

  /** Emitting the group `s[lo..hi]`, of which some string is used. */
  lemma {:induction false} ArrangeGroup(s: seq<StrPtr>, out: Bytes, t: Bytes, lo: nat, hi: nat)
    requires Arranged(s, out, lo) && lo < hi <= |s| && NoNul(t) && exists j :: lo <= j < hi && s[j].used
    ensures Arranged(SetOffsets(s, lo, hi, |out|), out + t + [0], hi)
  {
    var s', out' := SetOffsets(s, lo, hi, |out|), out + t + [0];
    forall p: nat | IsStart(out', p) ensures HasPointer(s', hi, p) {
      StartsAppended(out, t, p);
      if p == |out| {
        var j :| lo <= j < hi && s[j].used;
        assert s'[j].used && s'[j].newOff == p;
      } else {
        assert HasPointer(s, lo, p);
        var j :| 0 <= j < lo && s[j].used && s[j].newOff == p;
        assert s'[j] == s[j];
      }
    }
  }

  lemma {:induction false} ArrangeSkipped(s: seq<StrPtr>, out: Bytes, lo: nat, hi: nat)
    requires Arranged(s, out, lo) && lo < hi <= |s| && forall j :: lo <= j < hi ==> !s[j].used
    ensures Arranged(s, out, hi)
  {
    forall p: nat | IsStart(out, p) ensures HasPointer(s, hi, p) { assert HasPointer(s, lo, p); }
  }

  /** Emitting the group `s[lo..hi]` of equal strings, different from all strings before it. */
  lemma {:induction false} EmitGroup(c: seq<Bytes>, s: seq<StrPtr>, out: Bytes, lo: nat, hi: nat)
    requires Emitted(c, s, out, lo) && GroupOk(c, lo, hi)
    requires c[lo] == [] ==> out == []
    ensures Emitted(c, SetOffsets(s, lo, hi, |out|), out + c[lo] + [0], hi)
  {
    var t, out' := SetOffsets(s, lo, hi, |out|), out + c[lo] + [0];
    assert out' == out + (c[lo] + [0]);
    assert StoredAt(out', |out|, c[lo]);
    forall j | 0 <= j < hi && t[j].used ensures StoredAt(out', t[j].newOff, c[j]) {
      if j < lo { StoredStays(out, c[lo] + [0], s[j].newOff, c[j]); }
    }
    forall j, k | 0 <= j < hi && 0 <= k < hi && t[j].used && t[k].used
      ensures t[j].newOff == t[k].newOff <==> c[j] == c[k]
    {
      if j < lo { assert StoredAt(out, s[j].newOff, c[j]); }
      if k < lo { assert StoredAt(out, s[k].newOff, c[k]); }
    }
  }

  /** A group none of whose strings is used is dropped. */
  lemma SkipGroup(c: seq<Bytes>, s: seq<StrPtr>, out: Bytes, lo: nat, hi: nat)
    requires Emitted(c, s, out, lo) && lo < hi <= |s|
    requires forall j :: lo <= j < hi ==> !s[j].used
    ensures Emitted(c, s, out, hi)
  {
  }

  /** Only new offsets may differ. */
  ghost predicate SameButOffsets(a: seq<StrPtr>, b: seq<StrPtr>) {
    |a| == |b| && forall i :: 0 <= i < |a| ==> a[i].str == b[i].str && a[i].used == b[i].used
  }

  /** Some used string is empty. */
  ghost predicate EmptyIsUsed(c: seq<Bytes>, s: seq<StrPtr>) {
    |c| == |s| && exists j :: 0 <= j < |s| && s[j].used && c[j] == []
  }

  /** The emitted strings start with the empty string and end with a NUL. */
  predicate OutputOk(out: Bytes) {
    |out| > 0 && out[0] == 0 && out[|out| - 1] == 0
  }

  /** The grouping loop of `btf_dedup_strings`, over pointers sorted by content. */
  method EmitStrings(data: Bytes, s0: seq<StrPtr>) returns (s: seq<StrPtr>, out: Bytes)
    requires SortedBy(s0, ByContent(data)) && EmptyIsUsed(Texts(data, s0), s0)
    ensures SameButOffsets(s0, s) && Emitted(Texts(data, s0), s, out, |s|)
    ensures OutputOk(out) && |out| <= Bulk(Texts(data, s0), |s0|) && Arranged(s, out, |s|)
  {
    ghost var c := Texts(data, s0);
    SortedContents(data, s0);
    s, out := s0, [];
    var grp, grpUsed := 0, s[0].used;
    var i := 1;
    StartGroups(c, s0);
    while i <= |s|
      invariant 1 <= i <= |s| + 1 && |s| == |s0|
      invariant i <= |s| ==> EmitInv(c, s0, s, out, grp, grpUsed, i)
      invariant i == |s| + 1 ==> EmitDone(c, s0, s, out)
    {
      s, out, grp, grpUsed := EmitStep(data, s, out, grp, grpUsed, i, c, s0);
      i := i + 1;
    }
  }

  /** One step of the grouping loop: string `i` joins the group, or ends it and starts the next. */
  method EmitStep(data: Bytes, s0: seq<StrPtr>, out0: Bytes, grp0: nat, used0: bool, i: nat,
                  ghost c: seq<Bytes>, ghost origin: seq<StrPtr>)
      returns (s: seq<StrPtr>, out: Bytes, grp: nat, grpUsed: bool)
    requires c == Texts(data, origin) && EmitInv(c, origin, s0, out0, grp0, used0, i)
    ensures |s| == |s0|
    ensures i < |s| ==> EmitInv(c, origin, s, out, grp, grpUsed, i + 1)
    ensures i == |s| ==> EmitDone(c, origin, s, out)
  {
    s, out, grp, grpUsed := s0, out0, grp0, used0;
    assert Text(data, s[grp].str) == c[grp] && (i < |s| ==> Text(data, s[i].str) == c[i]);
    if i < |s| && Text(data, s[i].str) == Text(data, s[grp].str) {
      ExtendGroup(c, origin, s, out, grp, grpUsed, i);
      grpUsed := grpUsed || s[i].used;
    } else {
      s, out := EndGroup(data, s, out, grp, grpUsed, i, c, origin);
      if i < |s| {
        grp := i;
        grpUsed := s[i].used;
      }
    }
  }

  /** The end of a group: if any of its strings is used, one copy is emitted for all of them. */
  method EndGroup(data: Bytes, s0: seq<StrPtr>, out0: Bytes, grp: nat, grpUsed: bool, i: nat,
                  ghost c: seq<Bytes>, ghost origin: seq<StrPtr>) returns (s: seq<StrPtr>, out: Bytes)
    requires EmitInv(c, origin, s0, out0, grp, grpUsed, i) && (i == |s0| || c[i] != c[grp])
    requires Text(data, s0[grp].str) == c[grp]
    ensures |s| == |s0|
    ensures i < |s| ==> EmitInv(c, origin, s, out, i, s[i].used, i + 1)
    ensures i == |s| ==> EmitDone(c, origin, s, out)
  {
    s, out := s0, out0;
    CloseGroup(c, origin, s, out, grp, grpUsed, i);
    CloseArranged(c, origin, s, out, grp, grpUsed, i);
    if grpUsed {
      var newOff := |out|;
      out := out + Text(data, s[grp].str) + [0];
      s := SetOffsets(s, grp, i, newOff);
    }
    if i < |s| { OpenGroup(c, origin, s, out, i); }
  }

  lemma SortedContents(data: Bytes, s: seq<StrPtr>)
    requires SortedBy(s, ByContent(data))
    ensures SortedTexts(Texts(data, s)) && NoNuls(Texts(data, s))
  {
    forall i | 0 <= i < |s| ensures NoNul(Texts(data, s)[i]) { TextHasNoNul(data, s[i].str); }
    forall i, j | 0 <= i < j < |s| ensures Leq(Texts(data, s)[i], Texts(data, s)[j]) {
      assert ByContent(data)(s[i], s[j]);
    }
  }

  /** `grp..i` are equal strings, and no string before them is equal to them. */
  ghost predicate GroupOk(c: seq<Bytes>, grp: nat, i: nat) {
    && grp < i <= |c|
    && (forall j :: grp <= j < i ==> c[j] == c[grp])
    && (forall j :: 0 <= j < grp ==> c[j] != c[grp])
  }

  ghost predicate EmitInv(c: seq<Bytes>, s0: seq<StrPtr>, s: seq<StrPtr>, out: Bytes, grp: nat, grpUsed: bool, i: nat) {
    && SameButOffsets(s0, s) && GroupOk(c, grp, i) && Emitted(c, s, out, grp)
    && SortedTexts(c) && NoNuls(c) && EmptyIsUsed(c, s0) && Arranged(s, out, grp)
    && (grpUsed <==> exists j :: grp <= j < i && s0[j].used)
    && (if grp == 0 then out == [] else OutputOk(out))
    && |out| <= Bulk(c, grp)
  }

  ghost predicate EmitDone(c: seq<Bytes>, s0: seq<StrPtr>, s: seq<StrPtr>, out: Bytes) {
    && SameButOffsets(s0, s) && Emitted(c, s, out, |s|) && Arranged(s, out, |s|)
    && OutputOk(out) && |out| <= Bulk(c, |c|)
  }

  /** Emitting a group takes no more room than its first string. */
  lemma {:induction false} GroupRoom(c: seq<Bytes>, out: Bytes, grp: nat, i: nat)
    requires grp < i <= |c| && |out| <= Bulk(c, grp)
    ensures |out| <= Bulk(c, i) && |out + c[grp] + [0]| <= Bulk(c, i)
  {
    BulkMonotone(c, grp, i);
    BulkMonotone(c, grp + 1, i);
    assert Bulk(c, grp + 1) == Bulk(c, grp) + |c[grp]| + 1;
  }

  lemma StartGroups(c: seq<Bytes>, s: seq<StrPtr>)
    requires SortedTexts(c) && NoNuls(c) && EmptyIsUsed(c, s)
    ensures |s| > 0 && EmitInv(c, s, s, [], 0, s[0].used, 1)
  {
  }

  lemma {:induction false} ExtendGroup(c: seq<Bytes>, s0: seq<StrPtr>, s: seq<StrPtr>, out: Bytes, grp: nat,
                                       grpUsed: bool, i: nat)
    requires EmitInv(c, s0, s, out, grp, grpUsed, i) && i < |s| && c[i] == c[grp]
    ensures EmitInv(c, s0, s, out, grp, grpUsed || s[i].used, i + 1)
  {
    assert GroupOk(c, grp, i + 1);
  }

  lemma OpenGroup(c: seq<Bytes>, s0: seq<StrPtr>, s: seq<StrPtr>, out: Bytes, i: nat)
    requires SameButOffsets(s0, s) && Emitted(c, s, out, i) && OutputOk(out) && GroupOk(c, i, i + 1) && 0 < i
    requires SortedTexts(c) && NoNuls(c) && EmptyIsUsed(c, s0) && |out| <= Bulk(c, i) && Arranged(s, out, i)
    ensures EmitInv(c, s0, s, out, i, s[i].used, i + 1)
  {
    assert s[i].used == s0[i].used;
  }

  /** Emitting or dropping the group that ends at `i`. */
  lemma {:induction false} CloseGroup(c: seq<Bytes>, s0: seq<StrPtr>, s: seq<StrPtr>, out: Bytes, grp: nat,
                                      grpUsed: bool, i: nat)
    requires EmitInv(c, s0, s, out, grp, grpUsed, i) && (i == |s| || c[i] != c[grp])
    ensures i < |s| ==> GroupOk(c, i, i + 1)
    ensures grpUsed ==> SameButOffsets(s0, SetOffsets(s, grp, i, |out|))
    ensures grpUsed ==> Emitted(c, SetOffsets(s, grp, i, |out|), out + c[grp] + [0], i) && OutputOk(out + c[grp] + [0])
    ensures !grpUsed ==> Emitted(c, s, out, i) && OutputOk(out)
    ensures |out| <= Bulk(c, i) && |out + c[grp] + [0]| <= Bulk(c, i)
  {
    GroupRoom(c, out, grp, i);
    GroupMaximal(c, grp, i);
    FirstIsEmpty(c, s0);
    if grpUsed {
      EmitGroup(c, s, out, grp, i);
    } else {
      assert forall j :: grp <= j < i ==> s[j].used == s0[j].used;
      SkipGroup(c, s, out, grp, i);
      FirstGroupUsed(c, s0, grp, i);
    }
  }

  /** Either way the output is arranged. */
  lemma {:induction false} CloseArranged(c: seq<Bytes>, s0: seq<StrPtr>, s: seq<StrPtr>, out: Bytes, grp: nat,
                                         grpUsed: bool, i: nat)
    requires EmitInv(c, s0, s, out, grp, grpUsed, i)
    ensures if grpUsed then Arranged(SetOffsets(s, grp, i, |out|), out + c[grp] + [0], i) else Arranged(s, out, i)
  {
    assert forall j :: grp <= j < i ==> s[j].used == s0[j].used;
    if grpUsed {
      ArrangeGroup(s, out, c[grp], grp, i);
    } else {
      ArrangeSkipped(s, out, grp, i);
    }
  }

  lemma FirstGroupUsed(c: seq<Bytes>, s: seq<StrPtr>, grp: nat, i: nat)
    requires EmptyIsUsed(c, s) && grp < i <= |s| && c[0] == []
    requires forall j :: i <= j < |s| ==> c[j] != c[grp]
    requires forall j :: grp <= j < i ==> !s[j].used
    ensures grp > 0
  {
    var j :| 0 <= j < |s| && s[j].used && c[j] == [];
  }

  lemma FirstIsEmpty(c: seq<Bytes>, s: seq<StrPtr>)
    requires SortedTexts(c) && EmptyIsUsed(c, s)
    ensures c[0] == []
  {
    var j :| 0 <= j < |s| && s[j].used && c[j] == [];
    if j > 0 { assert Leq(c[0], c[j]); }
  }

  /** A group that ends at `i`: in sorted order nothing after it is equal to it. */
  lemma GroupMaximal(c: seq<Bytes>, grp: nat, i: nat)
    requires SortedTexts(c) && GroupOk(c, grp, i) && (i == |c| || c[i] != c[grp])
    ensures forall j :: i <= j < |c| ==> c[j] != c[grp]
    ensures i < |c| ==> GroupOk(c, i, i + 1)
  {
    if i < |c| {
      forall j | i <= j < |c| ensures c[j] != c[grp] { Separated(c, grp, i, j); }
      forall j | 0 <= j < i ensures c[j] != c[i] {
        if j < grp { Separated(c, j, grp, i); }
      }
    }
  }

  /** In sorted order, a string that differs from a later one differs from all after that. */
  lemma Separated(c: seq<Bytes>, i: nat, j: nat, k: nat)
    requires SortedTexts(c) && i < j <= k < |c| && c[i] != c[j]
    ensures c[i] != c[k]
  {
    LeqTotal(c[i], c[j]);
    if j < k { assert Leq(c[j], c[k]); }
    assert Leq(c[i], c[j]);
  }

  // ----- rewriting the references

  /** The walk with `btf_str_remap_offset`: each reference becomes the new offset of its string. */
  method RemapRefs(ptrs: seq<StrPtr>, refs: seq<nat>) returns (err: int, out: seq<nat>)
    requires SortedBy(ptrs, ByOffset())
    ensures err == OK || err == EINVAL
    ensures err == OK ==> |out| == |refs|
    ensures err == OK ==> forall j :: 0 <= j < |refs| ==>
              if refs[j] == 0 then out[j] == 0 else exists p :: p in ptrs && p.str == refs[j] && p.newOff == out[j]
    ensures err == EINVAL ==> exists j :: 0 <= j < |refs| && refs[j] != 0 && forall p :: p in ptrs ==> p.str != refs[j]
  {
    out := [];
    assert forall i, j :: 0 <= i < j < |ptrs| ==> ByOffset()(ptrs[i], ptrs[j]);
    for k := 0 to |refs|
      invariant |out| == k
      invariant forall j :: 0 <= j < k ==>
                  if refs[j] == 0 then out[j] == 0 else exists p :: p in ptrs && p.str == refs[j] && p.newOff == out[j]
    {
      if refs[k] == 0 {
        out := out + [0];
      } else {
        var found, i := Search(ptrs, refs[k]);
        if !found { return EINVAL, out; }
        assert ptrs[i] in ptrs;
        out := out + [ptrs[i].newOff];
      }
    }
    return OK, out;
  }

  /** What pass 1 promises: every visited reference denotes the string it denoted before, equal
      strings share one offset, different strings do not, and the empty string is at 0. */
  ghost predicate Preserved(data: Bytes, refs: seq<nat>, data': Bytes, refs': seq<nat>) {
    && Section(data) && Section(data') && |refs'| == |refs|
    && (forall j :: 0 <= j < |refs| ==>
         refs[j] < |data| && refs'[j] < |data'| && StrAt(data', refs'[j]) == StrAt(data, refs[j]))
    && (forall i, j :: 0 <= i < |refs| && 0 <= j < |refs| ==>
          (refs'[i] == refs'[j] <==> StrAt(data, refs[i]) == StrAt(data, refs[j])))
    && (forall j :: 0 <= j < |refs| && StrAt(data, refs[j]) == [] ==> refs'[j] == 0)
  }

  /** The section holds the empty string and the strings referred to, each once and in order. */
  ghost predicate Trimmed(data: Bytes, refs: seq<nat>) {
    && Section(data)
    && (forall off :: IsStart(data, off) ==> off == 0 || off in refs)
    && (forall p, q :: IsStart(data, p) && IsStart(data, q) && p < q ==>
          Leq(StrAt(data, p), StrAt(data, q)) && StrAt(data, p) != StrAt(data, q))
  }

  /** `btf_dedup_strings` over the references the walk visits. */
  method DedupStrings(data: Bytes, refs: seq<nat>, memory: bool)
      returns (err: int, data': Bytes, refs': seq<nat>)
    requires Section(data)
    ensures err == OK || (err == ENOMEM && !memory) || err == EINVAL
    ensures err == EINVAL ==> exists j :: 0 <= j < |refs| && !IsStart(data, refs[j])
    ensures err == OK ==> forall j :: 0 <= j < |refs| ==> IsStart(data, refs[j])
    ensures err == OK ==> Preserved(data, refs, data', refs')
    ensures err == OK ==> |data'| <= |data| && Trimmed(data', refs')
  {
    data', refs' := data, refs;
    var ptrs;
    err, ptrs := BuildIndex(data, memory);
    if err != OK { return; }
    var granted: bool := *;
    if !memory && !granted { err := ENOMEM; return; }
    ghost var index := ptrs;
    ptrs := ptrs[0 := ptrs[0].(used := true)];
    SameButUsedIndex(data, index, ptrs);
    err, ptrs := MarkUsed(data, ptrs, refs);
    if err != OK { return; }
    data', refs' := Rewrite(data, ptrs, refs, index);
  }

  /** The rest of the pass once the used strings are marked: it cannot fail. */
  method Rewrite(data: Bytes, marked: seq<StrPtr>, refs: seq<nat>, ghost index: seq<StrPtr>)
      returns (data': Bytes, refs': seq<nat>)
    requires Section(data) && IndexOf(data, marked) && |marked| > 0 && marked[0].str == 0 && marked[0].used
    requires MarkedUpTo(data, marked, refs, |refs|)
    requires |index| == |marked| && forall i :: 0 <= i < |index| ==> index[i].str == marked[i].str
    requires Total(RoomAt(data), index, |index|) == |data|
    ensures Preserved(data, refs, data', refs') && |data'| <= |data| && Trimmed(data', refs')
  {
    ByContentPreorder(data);
    var sorted := Qsort(marked, ByContent(data));
    SameMembers(marked, sorted);
    RoomKept(data, index, marked, sorted);
    EmptyStaysUsed(data, marked, sorted);
    var emitted;
    emitted, data' := EmitStrings(data, sorted);
    assert Texts(data, emitted) == Texts(data, sorted);
    var ptrs := Qsort(emitted, ByOffset());
    SameMembers(emitted, ptrs);
    MembersMarked(data, marked, sorted, emitted, ptrs, refs);
    var err;
    err, refs' := RemapRefs(ptrs, refs);
    assert err == OK;
    RemappedPreserved(data, data', emitted, ptrs, refs, refs');
    UsedStrings(marked, sorted, emitted, refs);
    SortedContents(data, sorted);
    RemappedTrimmed(data, data', emitted, ptrs, refs, refs');
  }

  /** Only strings referred to, and that at 0, are used after sorting and emitting. */
  lemma {:induction false} UsedStrings(marked: seq<StrPtr>, sorted: seq<StrPtr>, emitted: seq<StrPtr>, refs: seq<nat>)
    requires UsedOnlyBy(marked, refs) && SameButOffsets(sorted, emitted)
    requires forall x :: x in marked <==> x in sorted
    ensures UsedOnlyBy(emitted, refs)
  {
    forall k | 0 <= k < |emitted| && emitted[k].used ensures emitted[k].str == 0 || emitted[k].str in refs {
      assert sorted[k] in marked;
    }
  }

  lemma {:induction false} RemappedTrimmed(data: Bytes, out: Bytes, emitted: seq<StrPtr>, ptrs: seq<StrPtr>,
                                           refs: seq<nat>, refs': seq<nat>)
    requires Section(data) && OutputOk(out) && Emitted(Texts(data, emitted), emitted, out, |emitted|)
    requires Arranged(emitted, out, |emitted|) && SortedTexts(Texts(data, emitted)) && UsedOnlyBy(emitted, refs)
    requires forall x :: x in emitted <==> x in ptrs
    requires forall j :: 0 <= j < |refs| ==> HasUsed(ptrs, refs[j])
    requires |refs'| == |refs|
    requires forall j :: 0 <= j < |refs| ==>
               if refs[j] == 0 then refs'[j] == 0 else exists p :: p in ptrs && p.str == refs[j] && p.newOff == refs'[j]
    ensures Trimmed(out, refs')
  {
    forall off | IsStart(out, off) ensures off == 0 || off in refs' {
      assert HasPointer(emitted, |emitted|, off);
      var j :| 0 <= j < |emitted| && emitted[j].used && emitted[j].newOff == off;
      if emitted[j].str == 0 {
        assert Text(data, 0) == [];
      } else {
        var i :| 0 <= i < |refs| && refs[i] == emitted[j].str;
        var k := PointerFor(data, out, emitted, ptrs, refs[i], refs'[i]);
        assert Texts(data, emitted)[j] == Texts(data, emitted)[k];
      }
    }
    forall p, q | IsStart(out, p) && IsStart(out, q) && p < q
      ensures Leq(StrAt(out, p), StrAt(out, q)) && StrAt(out, p) != StrAt(out, q)
    {
      InOrder(data, out, emitted, p, q);
    }
  }

  lemma {:induction false} InOrder(data: Bytes, out: Bytes, emitted: seq<StrPtr>, p: nat, q: nat)
    requires Section(data) && OutputOk(out) && Emitted(Texts(data, emitted), emitted, out, |emitted|)
    requires Arranged(emitted, out, |emitted|) && SortedTexts(Texts(data, emitted))
    requires IsStart(out, p) && IsStart(out, q) && p < q
    ensures Leq(StrAt(out, p), StrAt(out, q)) && StrAt(out, p) != StrAt(out, q)
  {
    assert HasPointer(emitted, |emitted|, p) && HasPointer(emitted, |emitted|, q);
    var j :| 0 <= j < |emitted| && emitted[j].used && emitted[j].newOff == p;
    var k :| 0 <= k < |emitted| && emitted[k].used && emitted[k].newOff == q;
    StoredText(data, out, emitted, j);
    StoredText(data, out, emitted, k);
    assert j < k;
  }

  lemma {:induction false} StoredText(data: Bytes, out: Bytes, emitted: seq<StrPtr>, j: nat)
    requires OutputOk(out) && Emitted(Texts(data, emitted), emitted, out, |emitted|)
    requires j < |emitted| && emitted[j].used
    ensures emitted[j].newOff < |out| && StrAt(out, emitted[j].newOff) == Texts(data, emitted)[j]
  {
    var t := Texts(data, emitted)[j];
    assert StoredAt(out, emitted[j].newOff, t);
    TextHasNoNul(data, emitted[j].str);
    StoredStringFound(out, emitted[j].newOff, t);
  }

  /** Marking and sorting leave the strings' room as it is. */
  lemma {:induction false} RoomKept(data: Bytes, index: seq<StrPtr>, marked: seq<StrPtr>, sorted: seq<StrPtr>)
    requires |index| == |marked| && forall i :: 0 <= i < |index| ==> index[i].str == marked[i].str
    requires multiset(sorted) == multiset(marked)
    ensures Bulk(Texts(data, sorted), |sorted|) == Total(RoomAt(data), index, |index|)
  {
    forall i | 0 <= i < |index| ensures RoomAt(data)(index[i]) == RoomAt(data)(marked[i]) {}
    TotalEqual(RoomAt(data), index, marked, |index|);
    TotalPermuted(RoomAt(data), sorted, marked);
    RoomOfTexts(data, sorted, Texts(data, sorted), |sorted|);
  }

  lemma EmptyStaysUsed(data: Bytes, marked: seq<StrPtr>, sorted: seq<StrPtr>)
    requires Section(data) && |marked| > 0 && marked[0].str == 0 && marked[0].used
    requires forall x :: x in marked <==> x in sorted
    ensures EmptyIsUsed(Texts(data, sorted), sorted)
  {
    assert marked[0] in sorted;
    var k :| 0 <= k < |sorted| && sorted[k] == marked[0];
    assert Texts(data, sorted)[k] == Text(data, 0) == [];
  }

  /** Every visited reference has its pointer, marked as used, through both sorts. */
  lemma MembersMarked(data: Bytes, marked: seq<StrPtr>, sorted: seq<StrPtr>, emitted: seq<StrPtr>, ptrs: seq<StrPtr>,
                      refs: seq<nat>)
    requires IndexOf(data, marked) && |marked| > 0 && marked[0].str == 0 && marked[0].used
    requires MarkedUpTo(data, marked, refs, |refs|)
    requires forall x :: x in marked <==> x in sorted
    requires SameButOffsets(sorted, emitted)
    requires forall x :: x in emitted <==> x in ptrs
    ensures HasUsed(ptrs, 0) && forall j :: 0 <= j < |refs| ==> HasUsed(ptrs, refs[j])
  {
    UsedCarries(marked, sorted, emitted, ptrs, 0);
    forall j | 0 <= j < |refs| ensures HasUsed(ptrs, refs[j]) {
      if refs[j] != 0 { UsedCarries(marked, sorted, emitted, ptrs, refs[j]); }
    }
  }

  /** `ptrs` has a pointer for `off`, and all its pointers for `off` are used. */
  ghost predicate HasUsed(ptrs: seq<StrPtr>, off: nat) {
    (exists p :: p in ptrs && p.str == off) && forall p :: p in ptrs && p.str == off ==> p.used
  }

  lemma UsedCarries(marked: seq<StrPtr>, sorted: seq<StrPtr>, emitted: seq<StrPtr>, ptrs: seq<StrPtr>, off: nat)
    requires exists i :: 0 <= i < |marked| && marked[i].str == off
    requires forall i :: 0 <= i < |marked| && marked[i].str == off ==> marked[i].used
    requires forall x :: x in marked <==> x in sorted
    requires SameButOffsets(sorted, emitted)
    requires forall x :: x in emitted <==> x in ptrs
    ensures HasUsed(ptrs, off)
  {
    var i :| 0 <= i < |marked| && marked[i].str == off;
    assert marked[i] in sorted;
    var k :| 0 <= k < |sorted| && sorted[k] == marked[i];
    assert emitted[k] in ptrs && emitted[k].str == off;
    forall p | p in ptrs && p.str == off ensures p.used {
      assert p in emitted;
      var k :| 0 <= k < |emitted| && emitted[k] == p;
      assert sorted[k] in marked;
    }
  }

  lemma {:induction false} RemappedPreserved(data: Bytes, out: Bytes, emitted: seq<StrPtr>, ptrs: seq<StrPtr>,
                                             refs: seq<nat>, refs': seq<nat>)
    requires Section(data) && OutputOk(out) && Emitted(Texts(data, emitted), emitted, out, |emitted|)
    requires forall x :: x in emitted <==> x in ptrs
    requires HasUsed(ptrs, 0) && forall j :: 0 <= j < |refs| ==> HasUsed(ptrs, refs[j])
    requires forall j :: 0 <= j < |refs| ==> refs[j] < |data|
    requires |refs'| == |refs|
    requires forall j :: 0 <= j < |refs| ==>
               if refs[j] == 0 then refs'[j] == 0 else exists p :: p in ptrs && p.str == refs[j] && p.newOff == refs'[j]
    ensures Preserved(data, refs, out, refs')
  {
    forall j | 0 <= j < |refs| ensures Renames(emitted, refs[j], refs'[j]) {
      var k := PointerFor(data, out, emitted, ptrs, refs[j], refs'[j]);
    }
    forall j | 0 <= j < |refs|
      ensures refs'[j] < |out| && StrAt(out, refs'[j]) == StrAt(data, refs[j])
      ensures StrAt(data, refs[j]) == [] ==> refs'[j] == 0
    {
      RenamedString(data, out, emitted, refs[j], refs'[j]);
    }
    forall i, j | 0 <= i < |refs| && 0 <= j < |refs|
      ensures refs'[i] == refs'[j] <==> StrAt(data, refs[i]) == StrAt(data, refs[j])
    {
      RenamedPair(data, out, emitted, refs[i], refs'[i], refs[j], refs'[j]);
    }
  }

  /** Some used pointer for `off` has the new offset `off'`. */
  ghost predicate Renames(emitted: seq<StrPtr>, off: nat, off': nat) {
    exists k :: 0 <= k < |emitted| && emitted[k].used && emitted[k].str == off && emitted[k].newOff == off'
  }

  lemma {:induction false} RenamedString(data: Bytes, out: Bytes, emitted: seq<StrPtr>, off: nat, off': nat)
    requires Section(data) && OutputOk(out) && Emitted(Texts(data, emitted), emitted, out, |emitted|) && off < |data|
    requires Renames(emitted, off, off')
    ensures off' < |out| && StrAt(out, off') == StrAt(data, off)
    ensures StrAt(data, off) == [] ==> off' == 0
  {
    var k :| 0 <= k < |emitted| && emitted[k].used && emitted[k].str == off && emitted[k].newOff == off';
    assert StoredAt(out, off', Text(data, off));
    TextHasNoNul(data, off);
    StoredStringFound(out, off', Text(data, off));
  }

  lemma RenamedPair(data: Bytes, out: Bytes, emitted: seq<StrPtr>, x: nat, x': nat, y: nat, y': nat)
    requires Section(data) && Emitted(Texts(data, emitted), emitted, out, |emitted|) && x < |data| && y < |data|
    requires Renames(emitted, x, x') && Renames(emitted, y, y')
    ensures x' == y' <==> StrAt(data, x) == StrAt(data, y)
  {
    var a :| 0 <= a < |emitted| && emitted[a].used && emitted[a].str == x && emitted[a].newOff == x';
    var b :| 0 <= b < |emitted| && emitted[b].used && emitted[b].str == y && emitted[b].newOff == y';
    assert emitted[a].newOff == emitted[b].newOff <==> Text(data, x) == Text(data, y);
  }

  lemma PointerFor(data: Bytes, out: Bytes, emitted: seq<StrPtr>, ptrs: seq<StrPtr>, off: nat, off': nat)
      returns (k: nat)
    requires Section(data) && Emitted(Texts(data, emitted), emitted, out, |emitted|)
    requires forall x :: x in emitted <==> x in ptrs
    requires HasUsed(ptrs, off)
    requires if off == 0 then off' == 0 else exists p :: p in ptrs && p.str == off && p.newOff == off'
    ensures 0 <= k < |emitted| && emitted[k].used && emitted[k].str == off && emitted[k].newOff == off'
  {
    var p: StrPtr;
    if off == 0 {
      p :| p in ptrs && p.str == off;
    } else {
      p :| p in ptrs && p.str == off && p.newOff == off';
    }
    assert p in emitted;
    k :| 0 <= k < |emitted| && emitted[k] == p;
    if off == 0 { assert Text(data, 0) == []; }
  }
}
