/**
 The perf ring reader: it hands every record between tail and head to a callback, joining a record
 that wraps around the end of the ring in a copy buffer, and publishes the new tail.
 */
module PerfRing {
  import opened Powers

  newtype byte = x: int | 0 <= x < 256

  // ----- what the kernel leaves in the ring

  /** The record length in the header's bytes 6 and 7. */
  function HeaderSize(rec: seq<byte>): nat
    requires |rec| >= 8
  {
    rec[6] as nat + 256 * rec[7] as nat
  }

  /** A whole record: 8-byte aligned length, never empty, that its header states. */
  predicate IsRecord(rec: seq<byte>) {
    |rec| >= 8 && |rec| % 8 == 0 && HeaderSize(rec) == |rec|
  }

  /** Bytes taken by the first `k` records. */
  function BytesOf(recs: seq<seq<byte>>, k: nat): nat
    requires k <= |recs|
  {
    if k == 0 then 0 else BytesOf(recs, k - 1) + |recs[k - 1]|
  }

  lemma {:induction false} BytesMonotone(recs: seq<seq<byte>>, j: nat, k: nat)
    requires j <= k <= |recs|
    ensures BytesOf(recs, j) <= BytesOf(recs, k)
    decreases k
  {
    if j < k { BytesMonotone(recs, j, k - 1); }
  }

  /** The bytes of `rec` lie in the ring from stream position `pos` on. */
  predicate LiesAt(ring: seq<byte>, pos: nat, rec: seq<byte>)
    requires |ring| > 0
  {
    forall i :: 0 <= i < |rec| ==> ring[(pos + i) % |ring|] == rec[i]
  }

  /** The ring, of a power-of-two size, holds `recs` one after another from stream position `pos`;
      stream positions count all bytes ever written and do not wrap around. */
  ghost predicate Holds(ring: seq<byte>, bits: nat, pos: nat, recs: seq<seq<byte>>) {
    && 3 <= bits < 64 && |ring| == Pow2(bits)
    && pos % 8 == 0
    && BytesOf(recs, |recs|) <= |ring|
    && forall k :: 0 <= k < |recs| ==> RecordAt(ring, pos, recs, k)
  }

  /** The `k`-th record lies where the ones before it end. */
  predicate RecordAt(ring: seq<byte>, pos: nat, recs: seq<seq<byte>>, k: nat)
    requires |ring| > 0 && k < |recs|
  {
    IsRecord(recs[k]) && LiesAt(ring, pos + BytesOf(recs, k), recs[k])
  }

  // ----- addressing

  /** Masking a 64-bit position finds the same slot as masking the stream position. */
  lemma {:induction false} MaskedPosition(bits: nat, pos: nat)
    requires bits < 64
    ensures pos % TWO64 % Pow2(bits) == pos % Pow2(bits)
  {
    Pow2Of64();
    Pow2Split(64, bits);
    ModMod(pos, Pow2(bits), Pow2(64 - bits));
  }

  /** The slot of a byte a little after `pos`. */
  lemma SlotAfter(pos: nat, i: nat, size: nat)
    requires size > 0 && i <= size
    ensures var off := pos % size;
            (pos + i) % size == if off + i < size then off + i
                                else if off + i < 2 * size then off + i - size
                                else 0
  {
    var q, off := pos / size, pos % size;
    assert pos == q * size + off;
    if off + i < size {
      ModUnique(pos + i, size, q, off + i);
    } else {
      assert (q + 1) * size == q * size + size;
      ModUnique(pos + i, size, q + 1, off + i - size);
    }
  }

  /** An aligned position leaves room for a header before the end of the ring. */
  lemma HeaderInside(bits: nat, pos: nat)
    requires bits >= 3 && pos % 8 == 0
    ensures pos % Pow2(bits) + 8 <= Pow2(bits)
  {
    var size := Pow2(bits);
    assert Pow2(3) == 8;
    Pow2Split(bits, 3);
    var n := Pow2(bits - 3);
    ModMod(pos, 8, n);
    RoomForHeader(pos % size, n);
  }

  lemma RoomForHeader(off: nat, n: nat)
    requires off % 8 == 0 && off < 8 * n
    ensures off + 8 <= 8 * n
  {
  }

  /** The record as the reader finds it: in one piece, or in two. */
  lemma RecordInRing(ring: seq<byte>, pos: nat, rec: seq<byte>)
    requires |ring| > 0 && |rec| <= |ring| && LiesAt(ring, pos, rec)
    ensures var off := pos % |ring|;
            rec == if off + |rec| <= |ring| then ring[off..off + |rec|]
                   else ring[off..] + ring[..off + |rec| - |ring|]
  {
    var off := pos % |ring|;
    var found := if off + |rec| <= |ring| then ring[off..off + |rec|] else ring[off..] + ring[..off + |rec| - |ring|];
    forall i | 0 <= i < |rec| ensures found[i] == rec[i] {
      SlotAfter(pos, i, |ring|);
    }
  }

  /** The header's size field lies in the ring in one piece. */
  lemma SizeField(ring: seq<byte>, bits: nat, pos: nat, rec: seq<byte>)
    requires 3 <= bits && |ring| == Pow2(bits) && pos % 8 == 0 && IsRecord(rec) && LiesAt(ring, pos, rec)
    ensures var off := pos % |ring|;
            off + 8 <= |ring| && ring[off + 6] as nat + 256 * ring[off + 7] as nat == |rec|
  {
    HeaderInside(bits, pos);
    SlotAfter(pos, 6, |ring|);
    SlotAfter(pos, 7, |ring|);
    assert ring[(pos + 6) % |ring|] == rec[6] && ring[(pos + 7) % |ring|] == rec[7];
  }

  /** Records start at aligned positions. */
  lemma {:induction false} AlignedStarts(ring: seq<byte>, bits: nat, pos: nat, recs: seq<seq<byte>>, k: nat)
    requires Holds(ring, bits, pos, recs) && k <= |recs|
    ensures BytesOf(recs, k) % 8 == 0
    decreases k
  {
    if k > 0 {
      AlignedStarts(ring, bits, pos, recs, k - 1);
      assert RecordAt(ring, pos, recs, k - 1);
      AddAligned(BytesOf(recs, k - 1), |recs[k - 1]|);
    }
  }

  lemma AddAligned(x: nat, y: nat)
    requires x % 8 == 0 && y % 8 == 0
    ensures (x + y) % 8 == 0
  {
  }

  /** Two 64-bit positions are equal exactly when nothing lies between them. */
  lemma HeadReached(pos: nat, done: nat, total: nat)
    requires done <= total < done + TWO64
    ensures (pos + done) % TWO64 == (pos + total) % TWO64 <==> done == total
  {
  }

  // ----- the reader

  datatype Ret = Cont | Done | Error

  method Memcpy(dst: array<byte>, at: nat, src: seq<byte>)
    requires at + |src| <= dst.Length
    modifies dst
    ensures dst[..] == old(dst[..at]) + src + old(dst[at + |src|..])
  {
    var i := 0;
    while i < |src|
      invariant 0 <= i <= |src|
      invariant dst[..] == old(dst[..at]) + src[..i] + old(dst[at + i..])
    {
      dst[at + i] := src[i];
      i := i + 1;
    }
    assert src[..i] == src;
  }

  /** What a read may do: it delivers the first `k` records and stops, with the result and the
      reason given by the callback's answers, where `fn` is the callback's answer to the last of a
      sequence of deliveries. */
  ghost predicate Outcome(recs: seq<seq<byte>>, fn: seq<seq<byte>> -> Ret, delivered: seq<seq<byte>>, ret: Ret) {
    && delivered <= recs
    && (forall j :: 0 < j < |delivered| ==> fn(delivered[..j]) == Cont)
    && (|| (ret == Cont && delivered == recs && (recs != [] ==> fn(recs) == Cont))
        || (ret != Cont && delivered != [] && ret == fn(delivered))
        || (ret == Error && |delivered| < |recs| && (delivered != [] ==> fn(delivered) == Cont)))
  }

  class Reader {
    /** The tail the reader last published, a 64-bit number. */
    var dataTail: u64
    /** The caller's buffer for joined records. */
    var copyMem: array<byte>
    var copySize: nat

    ghost predicate Valid()
      reads this
    {
      copySize <= copyMem.Length
    }

    /** The bytes of one record, joined in the copy buffer if it wraps. With `memory` every allocation is
        granted, otherwise any of them may fail. */
    method Fetch(ring: seq<byte>, off: nat, size: nat, memory: bool) returns (ok: bool, rec: seq<byte>)
      requires Valid() && off < |ring| && size <= |ring|
      modifies this`copyMem, this`copySize, copyMem
      ensures Valid() && (copyMem == old(copyMem) || fresh(copyMem))
      ensures ok ==> rec == if off + size <= |ring| then ring[off..off + size]
                            else ring[off..] + ring[..off + size - |ring|]
      ensures ok ==> copySize >= old(copySize)
      ensures !ok ==> !memory && off + size > |ring| && old(copySize) < size && copySize == 0
    {
      if off + size <= |ring| {
        return true, ring[off..off + size];
      }
      var lenFirst := |ring| - off;
      var lenSecond := size - lenFirst;
      if copySize < size {
        var granted: bool := *;
        if !memory && !granted {
          copyMem := new byte[0];
          copySize := 0;
          return false, [];
        }
        copyMem := new byte[size];
        copySize := size;
      }
      Memcpy(copyMem, 0, ring[off..]);
      Memcpy(copyMem, lenFirst, ring[..lenSecond]);
      rec := copyMem[..size];
      return true, rec;
    }

    /** The record at an offset, as long as its header says. */
    method FetchAt(ring: seq<byte>, off: nat, memory: bool, ghost want: seq<byte>) returns (ok: bool, rec: seq<byte>)
      requires Valid() && Found(ring, off, want)
      modifies this`copyMem, this`copySize, copyMem
      ensures Valid() && (copyMem == old(copyMem) || fresh(copyMem))
      ensures ok ==> rec == want
      ensures ok ==> copySize >= old(copySize)
      ensures !ok ==> !memory && Wraps(ring, off, want) && old(copySize) < |want| && copySize == 0
    {
      var size := ring[off + 6] as nat + 256 * ring[off + 7] as nat;
      ok, rec := Fetch(ring, off, size, memory);
    }

    /** One turn of the loop: fetches the record at the tail, hands it to the callback and moves the
        tail behind it, or stops where it is when the record cannot be joined. */
    method ReadNext(ring: seq<byte>, tail: u64, fn: seq<seq<byte>> -> Ret, delivered: seq<seq<byte>>,
                    memory: bool, ghost want: seq<byte>)
      returns (ret: Ret, newTail: u64, nowDelivered: seq<seq<byte>>)
      requires Valid() && |ring| > 0 && Found(ring, tail % |ring|, want)
      modifies this`copyMem, this`copySize, copyMem
      ensures Valid() && (copyMem == old(copyMem) || fresh(copyMem))
      ensures nowDelivered == delivered || nowDelivered == delivered + [want]
      ensures nowDelivered != delivered ==>
                newTail == (tail + |want|) % TWO64 && ret == fn(nowDelivered) && copySize >= old(copySize)
      ensures nowDelivered == delivered ==>
                && !memory && newTail == tail && ret == Error && Wraps(ring, tail % |ring|, want)
                && old(copySize) < |want| && copySize == 0
    {
      var ok, rec := FetchAt(ring, tail % |ring|, memory, want);
      if !ok { return Error, tail, delivered; }
      nowDelivered := delivered + [rec];
      ret := fn(nowDelivered);
      newTail := (tail + |rec|) % TWO64;
    }

    /** `bpf_perf_event_read_simple` on a ring that holds `recs` from the tail up to the head. */
    method ReadSimple(ring: seq<byte>, dataHead: u64, fn: seq<seq<byte>> -> Ret, memory: bool,
                      ghost bits: nat, ghost pos: nat, ghost recs: seq<seq<byte>>)
      returns (ret: Ret, delivered: seq<seq<byte>>)
      requires Valid() && Holds(ring, bits, pos, recs)
      requires dataTail == pos % TWO64 && dataHead == (pos + BytesOf(recs, |recs|)) % TWO64
      modifies this, copyMem
      ensures Valid() && Outcome(recs, fn, delivered, ret)
      ensures Progress(pos, recs, delivered, dataTail, dataHead)
      ensures ret == Error && |delivered| < |recs| && (delivered != [] ==> fn(delivered) == Cont) ==>
                && !memory && |ring| > 0 && Wraps(ring, dataTail % |ring|, recs[|delivered|])
                && old(copySize) < |recs[|delivered|]| && copySize == 0
    {
      var tail: u64 := dataTail;
      ret, delivered := Cont, [];
      HeadAt(ring, bits, pos, recs, 0);
      while dataHead != tail
        invariant Valid() && (copyMem == old(copyMem) || fresh(copyMem))
        invariant ret == Cont && AllCont(fn, delivered) && copySize >= old(copySize)
        invariant Progress(pos, recs, delivered, tail, dataHead)
        decreases |recs| - |delivered|
      {
        Turn(ring, bits, pos, recs, delivered, tail, dataHead, fn);
        ret, tail, delivered := ReadNext(ring, tail, fn, delivered, memory, recs[|delivered|]);
        if ret != Cont { break; }
      }
      if ret == Cont { Finished(recs, fn, delivered); }
      dataTail := tail;
    }
  }

  lemma {:induction false} RingFits(ring: seq<byte>, bits: nat)
    requires bits < 64 && |ring| == Pow2(bits)
    ensures 0 < |ring| < TWO64
  {
    Pow2Of64();
    Pow2Mono(bits, 63);
    assert Pow2(64) == 2 * Pow2(63);
  }

  /** Head and tail are equal, as 64-bit numbers, exactly when no record is left. */
  lemma {:induction false} HeadAt(ring: seq<byte>, bits: nat, pos: nat, recs: seq<seq<byte>>, k: nat)
    requires Holds(ring, bits, pos, recs) && k <= |recs|
    ensures (pos + BytesOf(recs, k)) % TWO64 == (pos + BytesOf(recs, |recs|)) % TWO64 <==> k == |recs|
  {
    RingFits(ring, bits);
    BytesMonotone(recs, k, |recs|);
    if k < |recs| {
      assert RecordAt(ring, pos, recs, k);
      BytesMonotone(recs, k + 1, |recs|);
    }
    HeadReached(pos, BytesOf(recs, k), BytesOf(recs, |recs|));
  }

  /** The record as the reader finds it at offset `off`. */
  predicate Found(ring: seq<byte>, off: nat, rec: seq<byte>) {
    && off + 8 <= |ring| && ring[off + 6] as nat + 256 * ring[off + 7] as nat == |rec| <= |ring|
    && rec == if off + |rec| <= |ring| then ring[off..off + |rec|] else ring[off..] + ring[..off + |rec| - |ring|]
  }

  /** A record at offset `off` reaches beyond the end of the ring. */
  predicate Wraps(ring: seq<byte>, off: nat, rec: seq<byte>) { off + |rec| > |ring| }

  lemma FoundAt(ring: seq<byte>, bits: nat, pos: nat, rec: seq<byte>)
    requires 3 <= bits && |ring| == Pow2(bits) && pos % 8 == 0
    requires IsRecord(rec) && LiesAt(ring, pos, rec) && |rec| <= |ring|
    ensures Found(ring, pos % |ring|, rec)
  {
    SizeField(ring, bits, pos, rec);
    RecordInRing(ring, pos, rec);
  }

  /** The tail is the start of the first undelivered record, and is the head when there is none. */
  ghost predicate Progress(pos: nat, recs: seq<seq<byte>>, delivered: seq<seq<byte>>, tail: u64, head: u64) {
    && delivered <= recs
    && tail == (pos + BytesOf(recs, |delivered|)) % TWO64
    && (tail == head <==> |delivered| == |recs|)
  }

  /** What the reader finds at the tail while records are left. */
  lemma {:induction false} Located(ring: seq<byte>, bits: nat, pos: nat, recs: seq<seq<byte>>,
                                   delivered: seq<seq<byte>>, tail: u64, head: u64)
    requires Holds(ring, bits, pos, recs) && Progress(pos, recs, delivered, tail, head) && tail != head
    ensures |delivered| < |recs|
    ensures |ring| > 0 && Found(ring, tail % |ring|, recs[|delivered|])
  {
    var k := |delivered|;
    var p := pos + BytesOf(recs, k);
    assert RecordAt(ring, pos, recs, k);
    MaskedPosition(bits, p);
    AlignedStarts(ring, bits, pos, recs, k);
    AddAligned(pos, BytesOf(recs, k));
    BytesMonotone(recs, k + 1, |recs|);
    FoundAt(ring, bits, p, recs[k]);
  }

  lemma {:induction false} NextProgress(ring: seq<byte>, bits: nat, pos: nat, recs: seq<seq<byte>>,
                                        delivered: seq<seq<byte>>, tail: u64, head: u64)
    requires Holds(ring, bits, pos, recs) && Progress(pos, recs, delivered, tail, head) && |delivered| < |recs|
    requires head == (pos + BytesOf(recs, |recs|)) % TWO64
    ensures var rec := recs[|delivered|];
            Progress(pos, recs, delivered + [rec], (tail + |rec|) % TWO64, head)
  {
    TailMoves(pos + BytesOf(recs, |delivered|), |recs[|delivered|]|);
    HeadAt(ring, bits, pos, recs, |delivered| + 1);
  }

  lemma TailMoves(p: nat, size: nat)
    ensures (p % TWO64 + size) % TWO64 == (p + size) % TWO64
  {
  }

  // ----- the callback's answers

  ghost predicate AllCont(fn: seq<seq<byte>> -> Ret, delivered: seq<seq<byte>>) {
    forall j :: 0 < j <= |delivered| ==> fn(delivered[..j]) == Cont
  }

  lemma LastAnswer(fn: seq<seq<byte>> -> Ret, delivered: seq<seq<byte>>)
    requires AllCont(fn, delivered)
    ensures delivered != [] ==> fn(delivered) == Cont
  {
    assert delivered[..|delivered|] == delivered;
  }

  lemma Stopped(recs: seq<seq<byte>>, fn: seq<seq<byte>> -> Ret, delivered: seq<seq<byte>>)
    requires delivered <= recs && |delivered| < |recs| && AllCont(fn, delivered)
    ensures Outcome(recs, fn, delivered, Error)
  {
    LastAnswer(fn, delivered);
  }

  lemma Finished(recs: seq<seq<byte>>, fn: seq<seq<byte>> -> Ret, delivered: seq<seq<byte>>)
    requires delivered <= recs && |delivered| == |recs| && AllCont(fn, delivered)
    ensures Outcome(recs, fn, delivered, Cont)
  {
    LastAnswer(fn, delivered);
    assert delivered == recs;
  }

  lemma Answered(recs: seq<seq<byte>>, fn: seq<seq<byte>> -> Ret, before: seq<seq<byte>>)
    requires before <= recs && |before| < |recs| && AllCont(fn, before)
    ensures var after := before + [recs[|before|]];
            if fn(after) == Cont then AllCont(fn, after) else Outcome(recs, fn, after, fn(after))
  {
    var after := before + [recs[|before|]];
    forall j | 0 < j < |after| ensures fn(after[..j]) == Cont {
      assert after[..j] == before[..j];
    }
    assert after[..|after|] == after;
  }

  /** What one turn finds, and what holds after it whether or not the record is delivered. */
  lemma {:induction false} Turn(ring: seq<byte>, bits: nat, pos: nat, recs: seq<seq<byte>>, delivered: seq<seq<byte>>,
                                tail: u64, head: u64, fn: seq<seq<byte>> -> Ret)
    requires Holds(ring, bits, pos, recs) && head == (pos + BytesOf(recs, |recs|)) % TWO64
    requires Progress(pos, recs, delivered, tail, head) && tail != head && AllCont(fn, delivered)
    ensures |delivered| < |recs| && |ring| > 0 && Found(ring, tail % |ring|, recs[|delivered|])
    ensures Outcome(recs, fn, delivered, Error)
    ensures var after := delivered + [recs[|delivered|]];
            && Progress(pos, recs, after, (tail + |recs[|delivered|]|) % TWO64, head)
            && if fn(after) == Cont then AllCont(fn, after) else Outcome(recs, fn, after, fn(after))
  {
    Located(ring, bits, pos, recs, delivered, tail, head);
    NextProgress(ring, bits, pos, recs, delivered, tail, head);
    Stopped(recs, fn, delivered);
    Answered(recs, fn, delivered);
  }
}
