/**
 Pass 5 of BTF deduplication in memory: the canonical descriptors are moved down
 over the duplicates, one memmove per descriptor, and the string section is moved
 up against them.  Source and destination of a move may overlap.
 */
module Compaction {
  import opened CanonicalMap
  import opened BtfTypes
  import opened BtfDedup

  // ----- descriptors as bytes

  /** A 32-bit word in memory, least significant byte first. */
  function Word(w: int): (b: seq<nat>)
    ensures |b| == 4
  {
    [w % 256, w / 0x100 % 256, w / 0x1_0000 % 256, w / 0x100_0000 % 256]
  }

  function ReadWord(b: seq<nat>): nat
    requires |b| == 4
  {
    b[0] + 0x100 * b[1] + 0x1_0000 * b[2] + 0x100_0000 * b[3]
  }

  lemma {:induction false} WordRoundTrip(w: nat)
    requires w < 0x1_0000_0000
    ensures ReadWord(Word(w)) == w
  {
    assert w / 0x1_0000 == w / 0x100 / 0x100 && w / 0x100_0000 == w / 0x1_0000 / 0x100;
    assert w / 0x100_0000 < 256;
  }

  /** The `i`-th trailing record of a descriptor. */
  function Record(t: BtfType, i: nat): (b: seq<nat>)
    requires Layout(t) && i < Records(t)
    ensures |b| == RecordSize(Kind(t))
  {
    var k := Kind(t);
    if IsComposite(t) then Word(t.sig.names[i]) + Word(t.refs[i]) + Word(t.sig.vals[i])
    else if k == KIND_ENUM then Word(t.sig.names[i]) + Word(t.sig.vals[i])
    else if k == KIND_FUNC_PROTO then Word(t.sig.names[i]) + Word(t.refs[i + 1])
    else if k == KIND_DATASEC then Word(t.refs[i]) + Word(t.sig.vals[2 * i]) + Word(t.sig.vals[2 * i + 1])
    else if k == KIND_ARRAY then Word(t.refs[0]) + Word(t.refs[1]) + Word(t.sig.vals[0])
    else Word(t.sig.vals[0])
  }

  /** Bytes per trailing record, and how many there are. */
  function RecordSize(k: nat): nat {
    if k == KIND_STRUCT || k == KIND_UNION || k == KIND_DATASEC || k == KIND_ARRAY then 12
    else if k == KIND_ENUM || k == KIND_FUNC_PROTO then 8
    else if k == KIND_INT || k == KIND_VAR then 4 else 0
  }

  function RecordCount(info: nat): nat {
    var k := InfoKind(info);
    if k in {KIND_STRUCT, KIND_UNION, KIND_DATASEC, KIND_ENUM, KIND_FUNC_PROTO} then InfoVlen(info)
    else if k == KIND_ARRAY || k == KIND_INT || k == KIND_VAR then 1 else 0
  }

  function Records(t: BtfType): nat { RecordCount(t.sig.info) }

  lemma OneMore(size: nat, n: nat)
    ensures size * n == size + size * (n - 1)
  {
  }

  function RecordsFrom(t: BtfType, i: nat): (b: seq<nat>)
    requires Layout(t) && i <= Records(t)
    ensures |b| == RecordSize(Kind(t)) * (Records(t) - i)
    decreases Records(t) - i
  {
    if i == Records(t) then [] else
      var rest := RecordsFrom(t, i + 1);
      OneMore(RecordSize(Kind(t)), Records(t) - i);
      Record(t, i) + rest
  }

  /** The bytes of a descriptor. */
  function Encode(t: BtfType): (b: seq<nat>)
    requires Layout(t)
    ensures |b| == TypeSize(t.sig.info)
  {
    Word(t.sig.name) + Word(t.sig.info) + Word(SizeOrType(t)) + RecordsFrom(t, 0)
  }

  /** `btf_type_size`, for a known kind. */
  function TypeSize(info: nat): nat {
    12 + RecordSize(InfoKind(info)) * RecordCount(info)
  }

  lemma InfoInMemory(t: BtfType)
    requires Layout(t) && t.sig.info < 0x1_0000_0000
    ensures |Encode(t)| >= 12 && ReadWord(Encode(t)[4..8]) == t.sig.info
  {
    WordRoundTrip(t.sig.info);
    assert Encode(t)[4..8] == Word(t.sig.info);
  }

  // ----- sections of blocks

  type Block = seq<nat>

  /** Blocks 1 .. n-1 back to back. */
  ghost function Join(b: seq<Block>, n: nat): (s: seq<nat>)
    requires n <= |b|
  {
    if n <= 1 then [] else Join(b, n - 1) + b[n - 1]
  }

  /** The same, of the self-mapped ids only. */
  ghost function JoinSelf(b: seq<Block>, m: seq<nat>, n: nat): (s: seq<nat>)
    requires n <= |b| == |m|
  {
    if n <= 1 then [] else JoinSelf(b, m, n - 1) + if m[n - 1] == n - 1 then b[n - 1] else []
  }

  lemma {:induction false} JoinPrefix(b: seq<Block>, i: nat, n: nat)
    requires i <= n <= |b|
    ensures |Join(b, i)| <= |Join(b, n)|
    ensures forall q :: 0 <= q < |Join(b, i)| ==> Join(b, n)[q] == Join(b, i)[q]
    decreases n
  {
    if 1 < n && i < n { JoinPrefix(b, i, n - 1); }
  }

  /** What compaction leaves in memory is the type section of the compacted graph. */
  lemma {:induction false} SelfIsCompacted(g: BtfGraph, m: seq<nat>, h: BtfGraph, bg: seq<Block>, bh: seq<Block>,
                                           n: nat)
    requires Compacted(g, m, h) && n <= |g| == |bg| && |h| == |bh|
    requires forall i :: 0 < i < |g| && m[i] == i ==> bh[NewIdOf(m, i)] == bg[i]
    ensures 1 + SelfCount(m, n) <= |h|
    ensures JoinSelf(bg, m, n) == Join(bh, 1 + SelfCount(m, n))
    decreases n
  {
    SelfCountBounds(m, n, |m|);
    if n > 1 { SelfIsCompacted(g, m, h, bg, bh, n - 1); }
  }

  ghost function Blocks(g: BtfGraph, enc: BtfType -> Block): (b: seq<Block>)
    ensures |b| == |g| && forall i :: 0 <= i < |g| ==> b[i] == enc(g[i])
  {
    seq(|g|, i requires 0 <= i < |g| => enc(g[i]))
  }

  /** The compacted memory is the type section of the compacted graph, whatever the encoding. */
  lemma CompactedSection(g: BtfGraph, m: seq<nat>, h: BtfGraph, enc: BtfType -> Block)
    requires Compacted(g, m, h)
    ensures JoinSelf(Blocks(g, enc), m, |g|) == Join(Blocks(h, enc), |h|)
  {
    var bg, bh := Blocks(g, enc), Blocks(h, enc);
    forall i | 0 < i < |g| && m[i] == i ensures bh[NewIdOf(m, i)] == bg[i] {
      assert h[NewIdOf(m, i)] == g[i];
    }
    SelfIsCompacted(g, m, h, bg, bh, |g|);
  }

  /** The encoding as a total function. */
  function Encoding(t: BtfType): Block {
    if Layout(t) then Encode(t) else []
  }

  /** The length of every block can be read from its second word. */
  ghost predicate SelfDescribing(b: seq<Block>) {
    forall i :: 0 < i < |b| ==> |b[i]| >= 12 && TypeSize(ReadWord(b[i][4..8])) == |b[i]|
  }

  lemma BlocksSelfDescribing(g: BtfGraph)
    requires Layouts(g) && forall i :: 0 <= i < |g| ==> g[i].sig.info < 0x1_0000_0000
    ensures SelfDescribing(Blocks(g, Encoding))
  {
    var b := Blocks(g, Encoding);
    forall i | 0 < i < |g| ensures |b[i]| >= 12 && TypeSize(ReadWord(b[i][4..8])) == |b[i]| {
      assert Layout(g[i]) && b[i] == Encode(g[i]);
      InfoInMemory(g[i]);
    }
  }

  // ----- moving memory

  /** memmove within one buffer; the ranges may overlap. */
  method Memmove(mem: array<nat>, dst: nat, src: nat, len: nat)
    requires dst + len <= mem.Length && src + len <= mem.Length
    modifies mem
    ensures Moved(old(mem[..]), mem[..], dst, src, len)
  {
    if dst <= src {
      var i := 0;
      while i < len
        invariant i <= len
        invariant forall q :: dst <= q < dst + i ==> mem[q] == old(mem[src + (q - dst)])
        invariant forall q :: 0 <= q < dst || dst + i <= q < mem.Length ==> mem[q] == old(mem[q])
      {
        mem[dst + i] := mem[src + i];
        i := i + 1;
      }
    } else {
      var i := len;
      while i > 0
        invariant 0 <= i <= len
        invariant forall q :: dst + i <= q < dst + len ==> mem[q] == old(mem[src + (q - dst)])
        invariant forall q :: 0 <= q < dst + i || dst + len <= q < mem.Length ==> mem[q] == old(mem[q])
      {
        i := i - 1;
        mem[dst + i] := mem[src + i];
      }
    }
  }

  ghost predicate Moved(was: seq<nat>, now: seq<nat>, dst: nat, src: nat, len: nat) {
    && |now| == |was| && dst + len <= |was| && src + len <= |was|
    && (forall q :: dst <= q < dst + len ==> now[q] == was[src + (q - dst)])
    && (forall q :: 0 <= q < dst || dst + len <= q < |was| ==> now[q] == was[q])
  }

  /** Memory holds `s` at `off`. */
  ghost predicate HoldsAt(mem: seq<nat>, off: nat, s: seq<nat>) {
    off + |s| <= |mem| && forall q :: off <= q < off + |s| ==> mem[q] == s[q - off]
  }

  /** The loop state before id `i`: the self-mapped descriptors so far are packed from `start`, and
      everything from descriptor `i` on, strings included, is untouched. */
  ghost predicate PackedUpTo(b: seq<Block>, m: seq<nat>, was: seq<nat>, now: seq<nat>, start: nat, i: nat, p: nat)
    requires i <= |b| == |m|
  {
    && |now| == |was| && p == start + |JoinSelf(b, m, i)| <= start + |Join(b, i)| <= |was|
    && (forall q :: 0 <= q < start ==> now[q] == was[q])
    && HoldsAt(now, start, JoinSelf(b, m, i))
    && (forall q :: start + |Join(b, i)| <= q < |was| ==> now[q] == was[q])
  }

  lemma {:induction false} JoinBlock(b: seq<Block>, i: nat)
    requires 0 < i < |b|
    ensures |Join(b, i)| + |b[i]| <= |Join(b, |b|)|
    ensures forall q :: |Join(b, i)| <= q < |Join(b, i)| + |b[i]| ==> Join(b, |b|)[q] == b[i][q - |Join(b, i)|]
  {
    JoinPrefix(b, i + 1, |b|);
    assert Join(b, i + 1) == Join(b, i) + b[i];
  }

  lemma BlockAt(b: seq<Block>, was: seq<nat>, start: nat, i: nat)
    requires 0 < i < |b| && HoldsAt(was, start, Join(b, |b|))
    ensures HoldsAt(was, start + |Join(b, i)|, b[i])
  {
    JoinBlock(b, i);
    var off, all := start + |Join(b, i)|, Join(b, |b|);
    forall q | off <= q < off + |b[i]| ensures was[q] == b[i][q - off] {
      assert was[q] == all[q - start];
    }
  }

  /** Moving block `i` down to `p` destroys nothing that is still needed. */
  lemma {:induction false} PackOne(b: seq<Block>, m: seq<nat>, was: seq<nat>, now: seq<nat>, after: seq<nat>,
                                   start: nat, i: nat, p: nat)
    requires 0 < i < |b| == |m| && PackedUpTo(b, m, was, now, start, i, p) && m[i] == i
    requires HoldsAt(was, start, Join(b, |b|))
    requires Moved(now, after, p, start + |Join(b, i)|, |b[i]|)
    ensures PackedUpTo(b, m, was, after, start, i + 1, p + |b[i]|)
  {
    BlockAt(b, was, start, i);
    var off, packed := start + |Join(b, i)|, JoinSelf(b, m, i);
    assert |Join(b, i + 1)| == |Join(b, i)| + |b[i]|;
    assert JoinSelf(b, m, i + 1) == packed + b[i];
    forall q | start <= q < p + |b[i]| ensures after[q] == (packed + b[i])[q - start] {
      if q < p {
        assert after[q] == now[q] == packed[q - start];
      } else {
        assert after[q] == now[off + (q - p)] == was[off + (q - p)] == b[i][q - p];
      }
    }
  }

  lemma SkipOne(b: seq<Block>, m: seq<nat>, was: seq<nat>, now: seq<nat>, start: nat, i: nat, p: nat)
    requires 0 < i < |b| == |m| && PackedUpTo(b, m, was, now, start, i, p) && m[i] != i
    requires HoldsAt(was, start, Join(b, |b|))
    ensures PackedUpTo(b, m, was, now, start, i + 1, p)
  {
    BlockAt(b, was, start, i);
    assert |Join(b, i + 1)| == |Join(b, i)| + |b[i]|;
    assert JoinSelf(b, m, i + 1) == JoinSelf(b, m, i);
  }

  /** Reading `btf_type_size` from the descriptor in memory. */
  method ReadSize(mem: array<nat>, off: nat, ghost block: Block) returns (len: nat)
    requires HoldsAt(mem[..], off, block) && |block| >= 12 && TypeSize(ReadWord(block[4..8])) == |block|
    ensures len == |block|
  {
    var w := mem[off + 4..off + 8];
    assert w == block[4..8];
    len := TypeSize(ReadWord(w));
  }

  /** Pointers of ids not yet examined are the original ones; those of examined self-mapped ids are new. */
  ghost predicate PointersAt(b: seq<Block>, m: seq<nat>, ptrs: seq<nat>, start: nat, i: nat, next: nat) {
    && 1 <= i <= |b| == |m| == |ptrs| && next == 1 + SelfCount(m, i) <= i
    && (forall k :: i <= k < |b| ==> ptrs[k] == start + |Join(b, k)|)
    && (forall k :: 0 < k < i && m[k] == k ==>
         0 < NewIdOf(m, k) < next && ptrs[NewIdOf(m, k)] == start + |JoinSelf(b, m, k)|)
  }

  lemma {:induction false} PointerStep(b: seq<Block>, m: seq<nat>, ptrs: seq<nat>, start: nat, i: nat, next: nat)
    requires PointersAt(b, m, ptrs, start, i, next) && i < |b| <= BTF_MAX_NR_TYPES + 1
    ensures m[i] == i ==> PointersAt(b, m, ptrs[next := start + |JoinSelf(b, m, i)|], start, i + 1, next + 1)
    ensures m[i] != i ==> PointersAt(b, m, ptrs, start, i + 1, next)
  {
    if m[i] == i { NewIdsIncrease(m, i); }
  }

  /** Moves descriptor `i` down to `p`. */
  method MoveDescriptor(mem: array<nat>, off: nat, p: nat, ghost was: seq<nat>, ghost b: seq<Block>, ghost m: seq<nat>,
                        ghost start: nat, ghost i: nat) returns (len: nat)
    requires 0 < i < |b| == |m| && SelfDescribing(b) && HoldsAt(was, start, Join(b, |b|)) && m[i] == i
    requires PackedUpTo(b, m, was, mem[..], start, i, p) && off == start + |Join(b, i)|
    modifies mem
    ensures len == |b[i]| && PackedUpTo(b, m, was, mem[..], start, i + 1, p + len)
  {
    ghost var now := mem[..];
    BlockAt(b, was, start, i);
    len := ReadSize(mem, off, b[i]);
    Memmove(mem, p, off, len);
    PackOne(b, m, was, now, mem[..], start, i, p);
  }

  /** One iteration of `btf_dedup_compact_types` over memory and pointers. */
  method PackStep(mem: array<nat>, ptrs: array<nat>, m: seq<nat>, p: nat, i: nat, next: nat,
                  ghost was: seq<nat>, ghost b: seq<Block>, ghost start: nat) returns (p': nat, next': nat)
    requires mem != ptrs && |b| <= BTF_MAX_NR_TYPES + 1 && SelfDescribing(b) && HoldsAt(was, start, Join(b, |b|))
    requires 0 < i < |b| == |m| && PackedUpTo(b, m, was, mem[..], start, i, p)
    requires PointersAt(b, m, ptrs[..], start, i, next)
    modifies mem, ptrs
    ensures PackedUpTo(b, m, was, mem[..], start, i + 1, p') && PointersAt(b, m, ptrs[..], start, i + 1, next')
  {
    ghost var before := ptrs[..];
    PointerStep(b, m, before, start, i, next);
    p', next' := p, next;
    if m[i] == i {
      assert ptrs[..][i] == start + |Join(b, i)|;
      var len := MoveDescriptor(mem, ptrs[i], p, was, b, m, start, i);
      ptrs[next] := p;
      assert ptrs[..] == before[next := p];
      p', next' := p + len, next + 1;
    } else {
      SkipOne(b, m, was, mem[..], start, i, p);
    }
  }

  lemma PackStart(b: seq<Block>, m: seq<nat>, was: seq<nat>, start: nat)
    requires 0 < |b| == |m| && start <= |was|
    ensures PackedUpTo(b, m, was, was, start, 1, start)
  {
  }

  /** The loop of `btf_dedup_compact_types` over memory and pointers. */
  method PackTypes(mem: array<nat>, ptrs: array<nat>, m: seq<nat>, start: nat, ghost b: seq<Block>) returns (p: nat)
    requires mem != ptrs && 0 < |b| <= BTF_MAX_NR_TYPES + 1 && SelfDescribing(b)
    requires PointersAt(b, m, ptrs[..], start, 1, 1)
    requires HoldsAt(mem[..], start, Join(b, |b|))
    modifies mem, ptrs
    ensures PackedUpTo(b, m, old(mem[..]), mem[..], start, |b|, p)
    ensures PointersAt(b, m, ptrs[..], start, |b|, 1 + SelfCount(m, |m|))
  {
    ghost var was := mem[..];
    p := start;
    var i, next := 1, 1;
    PackStart(b, m, was, start);
    while i < ptrs.Length
      invariant 1 <= i <= |b| && PackedUpTo(b, m, was, mem[..], start, i, p)
      invariant PointersAt(b, m, ptrs[..], start, i, next)
    {
      p, next := PackStep(mem, ptrs, m, p, i, next, was, b, start);
      i := i + 1;
    }
  }

  /** The memory side of `btf_dedup_compact_types`: `ptrs[i]` is where descriptor `i` starts.
      Returns where the types end and the strings now begin. */
  method CompactMemory(mem: array<nat>, ptrs: array<nat>, m: seq<nat>, start: nat, strOff: nat, strLen: nat,
                       ghost b: seq<Block>)
      returns (p: nat)
    requires mem != ptrs && 0 < |b| <= BTF_MAX_NR_TYPES + 1 && SelfDescribing(b)
    requires PointersAt(b, m, ptrs[..], start, 1, 1)
    requires start + |Join(b, |b|)| <= strOff && strOff + strLen <= mem.Length
    requires HoldsAt(mem[..], start, Join(b, |b|))
    modifies mem, ptrs
    ensures p == start + |JoinSelf(b, m, |b|)| && p + strLen <= mem.Length
    ensures forall q :: 0 <= q < start ==> mem[q] == old(mem[q])
    ensures HoldsAt(mem[..], start, JoinSelf(b, m, |b|))
    ensures HoldsAt(mem[..], p, old(mem[strOff..strOff + strLen]))
    ensures PointersAt(b, m, ptrs[..], start, |b|, 1 + SelfCount(m, |m|))
  {
    ghost var was := mem[..];
    p := PackTypes(mem, ptrs, m, start, b);
    ghost var packed := mem[..];
    Memmove(mem, p, strOff, strLen);
    StringsMoved(was, packed, mem[..], start, p, strOff, strLen, JoinSelf(b, m, |b|));
    assert was[strOff..strOff + strLen] == old(mem[strOff..strOff + strLen]);
  }

  lemma StringsMoved(was: seq<nat>, packed: seq<nat>, now: seq<nat>, start: nat, p: nat, strOff: nat, strLen: nat,
                     s: seq<nat>)
    requires |was| == |packed| && HoldsAt(packed, start, s) && p == start + |s| <= strOff && strOff + strLen <= |was|
    requires forall q :: 0 <= q < start || strOff <= q < |was| ==> packed[q] == was[q]
    requires Moved(packed, now, p, strOff, strLen)
    ensures HoldsAt(now, start, s) && HoldsAt(now, p, was[strOff..strOff + strLen])
    ensures forall q :: 0 <= q < start ==> now[q] == was[q]
  {
    forall q | p <= q < p + strLen ensures now[q] == was[strOff..strOff + strLen][q - p] {
      assert now[q] == packed[strOff + (q - p)];
    }
  }

  /** Where the descriptors of a type section that starts at `start` begin. */
  ghost predicate PointsInto(b: seq<Block>, ptrs: seq<nat>, start: nat) {
    |b| <= |ptrs| && forall k :: 0 < k < |b| ==> ptrs[k] == start + |Join(b, k)|
  }

  /** The pointers compaction leaves are those into the packed section. */
  lemma {:induction false} PackedPointers(g: BtfGraph, m: seq<nat>, h: BtfGraph, bg: seq<Block>, bh: seq<Block>,
                                          ptrs: seq<nat>, start: nat)
    requires Compacted(g, m, h) && |g| == |bg| && |h| == |bh|
    requires forall i :: 0 < i < |g| && m[i] == i ==> bh[NewIdOf(m, i)] == bg[i]
    requires PointersAt(bg, m, ptrs, start, |bg|, 1 + SelfCount(m, |m|))
    ensures PointsInto(bh, ptrs, start)
  {
    forall k | 0 < k < |bh| ensures ptrs[k] == start + |Join(bh, k)| {
      var i := NewIdsOnto(m, |m|, k);
      SelfIsCompacted(g, m, h, bg, bh, i);
      assert NewIdOf(m, i) == k == 1 + SelfCount(m, i);
    }
  }

  /** `btf_dedup_compact_types` on the bytes of a type section: afterwards memory holds, from `start`
      on, the type section of the compacted graph `h`, the pointers of the new ids lead to its
      descriptors, and the string section follows directly behind. */
  method CompactSection(mem: array<nat>, ptrs: array<nat>, g: BtfGraph, m: seq<nat>, start: nat, strOff: nat,
                        strLen: nat, ghost h: BtfGraph) returns (p: nat)
    requires mem != ptrs && Compacted(g, m, h) && |g| <= BTF_MAX_NR_TYPES + 1 && ptrs.Length == |g|
    requires Layouts(g) && forall i :: 0 <= i < |g| ==> g[i].sig.info < 0x1_0000_0000
    requires PointsInto(Blocks(g, Encoding), ptrs[..], start)
    requires HoldsAt(mem[..], start, Join(Blocks(g, Encoding), |g|))
    requires start + |Join(Blocks(g, Encoding), |g|)| <= strOff && strOff + strLen <= mem.Length
    modifies mem, ptrs
    ensures forall q :: 0 <= q < start ==> mem[q] == old(mem[q])
    ensures HoldsAt(mem[..], start, Join(Blocks(h, Encoding), |h|))
    ensures p == start + |Join(Blocks(h, Encoding), |h|)|
    ensures HoldsAt(mem[..], p, old(mem[strOff..strOff + strLen]))
    ensures PointsInto(Blocks(h, Encoding), ptrs[..], start)
  {
    ghost var bg, bh := Blocks(g, Encoding), Blocks(h, Encoding);
    BlocksSelfDescribing(g);
    CompactedSection(g, m, h, Encoding);
    p := CompactMemory(mem, ptrs, m, start, strOff, strLen, bg);
    PackedPointers(g, m, h, bg, bh, ptrs[..], start);
  }
}
