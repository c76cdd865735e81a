/**
 The AF_XDP rings: one producer and one consumer share a ring of `size` slots and
 two free-running 32-bit indices; each side works with cached copies of them.

 Every operation touches shared memory at most once, so interleaving whole
 operations covers every interleaving of the two sides.
 */
module XskRing {
  import opened Powers

  /** The shared indices and slots, and the cached indices of either side. */
  datatype Ring<T> = Ring(
    size: nat,
    producer: u32, consumer: u32, slots: seq<T>,
    prodCachedProd: u32, prodCachedCons: u32,
    consCachedProd: u32, consCachedCons: u32)

  // ----- 32-bit arithmetic

  function Add32(a: u32, n: nat): u32 { (a + n) % TWO32 }
  function Sub32(a: u32, b: u32): u32 { (a - b) % TWO32 }

  lemma Sub32OfCounters(x: nat, y: nat)
    requires 0 <= x - y < TWO32
    ensures Sub32(x % TWO32, y % TWO32) == x - y
  {
  }

  lemma Add32OfCounter(x: nat, n: nat)
    ensures Add32(x % TWO32, n) == (x + n) % TWO32
  {
  }

  /** The ring size is a power of two that fits the index type. */
  ghost predicate SizeOk(size: nat) {
    exists bits: nat :: bits < 32 && size == Pow2(bits)
  }

  /** `idx & mask`, the mask being `size - 1` for a power of two. */
  function Slot(size: nat, idx: u32): nat
    requires size > 0
  {
    idx % size
  }

  /** Wrapping the index does not change the slot. */
  lemma {:induction false} SlotOfCounter(size: nat, x: nat)
    requires SizeOk(size)
    ensures 0 < size < TWO32 && Slot(size, x % TWO32) == x % size < size
  {
    var bits: nat :| bits < 32 && size == Pow2(bits);
    Pow2Of64();
    Pow2Split(32, bits);
    assert Pow2(32 - bits) == 2 * Pow2(31 - bits);
    Pow2Mono(bits, 31);
    ModMod(x, size, Pow2(32 - bits));
  }

  lemma DistinctSlots(size: nat, x: nat, y: nat)
    requires size > 0 && x < y < x + size
    ensures x % size != y % size
  {
    if x % size == y % size {
      var p, q := x / size, y / size;
      assert x == p * size + x % size && y == q * size + y % size;
      assert y - x == (q - p) * size;
      MulMono(1, q - p, size);
      MulMono(q - p, 0, size);
    }
  }

  // ----- operations of the producer

  /** `xsk_prod_nb_free`. */
  function NbFree<T>(r: Ring<T>, nb: u32): (Ring<T>, u32) {
    var free := Sub32(r.prodCachedCons, r.prodCachedProd);
    if free >= nb then (r, free)
    else
      var r' := r.(prodCachedCons := Add32(r.consumer, r.size));
      (r', Sub32(r'.prodCachedCons, r'.prodCachedProd))
  }

  /** `xsk_ring_prod__reserve`: the new state, how many entries were reserved and the first index. */
  function Reserve<T>(r: Ring<T>, nb: u64): (Ring<T>, nat, u32) {
    var (r', free) := NbFree(r, nb % TWO32);
    if free < nb then (r', 0, 0)
    else (r'.(prodCachedProd := Add32(r'.prodCachedProd, nb)), nb, r'.prodCachedProd)
  }

  /** Filling the entry at a reserved index. */
  function Write<T>(r: Ring<T>, idx: u32, v: T): Ring<T>
    requires 0 < r.size == |r.slots|
  {
    r.(slots := r.slots[Slot(r.size, idx) := v])
  }

  /** `xsk_ring_prod__submit`. */
  function Submit<T>(r: Ring<T>, nb: nat): Ring<T> {
    r.(producer := Add32(r.producer, nb))
  }

  // ----- operations of the consumer

  /** `xsk_cons_nb_avail`. */
  function NbAvail<T>(r: Ring<T>, nb: u32): (Ring<T>, u32) {
    var cached := Sub32(r.consCachedProd, r.consCachedCons);
    var r' := if cached == 0 then r.(consCachedProd := r.producer) else r;
    var entries := Sub32(r'.consCachedProd, r'.consCachedCons);
    (r', if entries > nb then nb else entries)
  }

  /** `xsk_ring_cons__peek`: the new state, how many entries were obtained and the first index. */
  function Peek<T>(r: Ring<T>, nb: u64): (Ring<T>, nat, u32) {
    var (r', entries) := NbAvail(r, nb % TWO32);
    if entries > 0 then (r'.(consCachedCons := Add32(r'.consCachedCons, entries)), entries, r'.consCachedCons)
    else (r', 0, 0)
  }

  function Read<T>(r: Ring<T>, idx: u32): T
    requires 0 < r.size == |r.slots|
  {
    r.slots[Slot(r.size, idx)]
  }

  /** `xsk_ring_cons__release`. */
  function Release<T>(r: Ring<T>, nb: nat): Ring<T> {
    r.(consumer := Add32(r.consumer, nb))
  }

  // ----- runs

  /** Entries reserved and not yet submitted; entries peeked and not yet released. */
  function Reserved<T>(r: Ring<T>): u32 { Sub32(r.prodCachedProd, r.producer) }
  function Peeked<T>(r: Ring<T>): u32 { Sub32(r.consCachedCons, r.consumer) }

  datatype Step<T> =
    | DoReserve(nb: u64)
    | DoWrite(k: u32, v: T)     // fill the k-th entry reserved and not yet submitted
    | DoSubmit(n: nat)
    | DoPeek(nb: u64)
    | DoRelease(n: nat)

  /** What the two sides promise: to fill and submit only what is reserved, and to release only
      what was peeked. */
  predicate Allowed<T>(r: Ring<T>, step: Step<T>) {
    match step
    case DoWrite(k, _) => k < Reserved(r)
    case DoSubmit(n) => n <= Reserved(r)
    case DoRelease(n) => n <= Peeked(r)
    case _ => true
  }

  /** A ring together with its history: all entries ever submitted, in order, how many have been
      released, how many had been submitted when the consumer last looked, and what was last written
      to each reserved entry, by its place in the order. */
  datatype History<T> = History(ring: Ring<T>, submitted: seq<T>, released: nat, seen: nat, written: map<nat, T>)

  /** What the consumer knows to be submitted when it peeks: what it saw when it last looked, unless
      it holds all of that, and then it looks. */
  function Known<T>(h: History<T>): nat {
    if h.seen == h.released + Peeked(h.ring) then |h.submitted| else h.seen
  }

  /** The entries a submit of `n` publishes. */
  ghost function Published<T>(r: Ring<T>, n: nat): (s: seq<T>)
    requires 0 < r.size == |r.slots|
    ensures |s| == n && forall i :: 0 <= i < n ==> s[i] == Read(r, Add32(r.producer, i))
  {
    seq(n, i requires 0 <= i < n => Read(r, Add32(r.producer, i)))
  }

  ghost function Next<T>(h: History<T>, step: Step<T>): (h': History<T>)
    requires 0 < h.ring.size == |h.ring.slots|
  {
    match step
    case DoReserve(nb) => h.(ring := Reserve(h.ring, nb).0)
    case DoWrite(k, v) =>
      h.(ring := Write(h.ring, Add32(h.ring.producer, k), v), written := h.written[|h.submitted| + k := v])
    case DoSubmit(n) => h.(ring := Submit(h.ring, n), submitted := h.submitted + Published(h.ring, n))
    case DoPeek(nb) => h.(ring := Peek(h.ring, nb).0, seen := Known(h))
    case DoRelease(n) => h.(ring := Release(h.ring, n), released := h.released + n)
  }

  /** The ring as set up: all indices 0, except that the producer's cached consumer is `size`. */
  ghost predicate Initial<T>(h: History<T>) {
    && SizeOk(h.ring.size) && |h.ring.slots| == h.ring.size
    && h.ring == Ring(h.ring.size, 0, 0, h.ring.slots, 0, h.ring.size % TWO32, 0, 0)
    && h.submitted == [] && h.released == 0 && h.seen == 0 && h.written == map[]
  }

  /** A run: every step allowed in the state it is taken in. */
  ghost predicate Run<T>(hs: seq<History<T>>, steps: seq<Step<T>>) {
    && |hs| == |steps| + 1 && Initial(hs[0])
    && forall i :: 0 <= i < |steps| ==>
         && 0 < hs[i].ring.size == |hs[i].ring.slots|
         && Allowed(hs[i].ring, steps[i]) && hs[i + 1] == Next(hs[i], steps[i])
  }

  // ----- the invariant

  /** The unbounded counters behind the cached indices. */
  datatype Counters = Counters(consCons: nat, prodProd: nat, prodCons: nat)

  /** The indices are the counters modulo 2^32, and the counters are in order. */
  ghost predicate Indices<T>(h: History<T>, c: Counters) {
    var r := h.ring;
    && SizeOk(r.size) && |r.slots| == r.size && 0 < r.size < TWO32
    && h.released <= c.consCons <= h.seen <= |h.submitted| <= c.prodProd <= c.prodCons <= h.released + r.size
    && r.consumer == h.released % TWO32 && r.producer == |h.submitted| % TWO32
    && r.consCachedCons == c.consCons % TWO32 && r.consCachedProd == h.seen % TWO32
    && r.prodCachedProd == c.prodProd % TWO32 && r.prodCachedCons == c.prodCons % TWO32
  }

  /** Every entry submitted and not released is still in its slot. */
  ghost predicate InSlots<T>(h: History<T>)
    requires h.ring.size > 0 && |h.ring.slots| == h.ring.size
  {
    forall x :: h.released <= x < |h.submitted| ==> h.ring.slots[x % h.ring.size] == h.submitted[x]
  }

  /** What was written is in its slot until it is submitted, and is what was submitted after that. */
  ghost predicate Staged<T>(h: History<T>, c: Counters)
    requires h.ring.size > 0 && |h.ring.slots| == h.ring.size
  {
    forall x :: x in h.written ==>
      if x < |h.submitted| then h.submitted[x] == h.written[x]
      else x < c.prodProd && h.ring.slots[x % h.ring.size] == h.written[x]
  }

  ghost predicate InvWith<T>(h: History<T>, c: Counters) {
    Indices(h, c) && InSlots(h) && Staged(h, c)
  }

  ghost predicate Inv<T>(h: History<T>) {
    exists c :: InvWith(h, c)
  }

  lemma InitialInv<T>(h: History<T>)
    requires Initial(h)
    ensures Inv(h)
  {
    SlotOfCounter(h.ring.size, 0);
    assert InvWith(h, Counters(0, 0, h.ring.size));
  }

  /** Counting free entries refreshes at most the producer's cached consumer. */
  lemma {:induction false} NbFreeKeeps<T>(h: History<T>, c: Counters, nb: u32) returns (c': Counters)
    requires Indices(h, c)
    ensures Indices(h.(ring := NbFree(h.ring, nb).0), c')
    ensures NbFree(h.ring, nb).0 == h.ring.(prodCachedCons := NbFree(h.ring, nb).0.prodCachedCons)
    ensures c' == c.(prodCons := c'.prodCons) && NbFree(h.ring, nb).1 == c'.prodCons - c'.prodProd
    ensures c'.prodCons - c'.prodProd < nb ==> c'.prodCons == h.released + h.ring.size
  {
    var r := h.ring;
    c' := c;
    Sub32OfCounters(c.prodCons, c.prodProd);
    if c.prodCons - c.prodProd < nb {
      Add32OfCounter(h.released, r.size);
      Sub32OfCounters(h.released + r.size, c.prodProd);
      c' := c'.(prodCons := h.released + r.size);
    }
  }

  /** Reserving moves the producer's cached indices and nothing else. */
  lemma {:induction false} ReserveKeeps<T>(h: History<T>, c: Counters, nb: u64) returns (c': Counters)
    requires Indices(h, c)
    ensures Indices(h.(ring := Reserve(h.ring, nb).0), c')
    ensures Reserve(h.ring, nb).0.slots == h.ring.slots
    ensures c' == c.(prodProd := c'.prodProd, prodCons := c'.prodCons)
    ensures Reserve(h.ring, nb).1 == c'.prodProd - c.prodProd
    ensures Reserve(h.ring, nb).1 > 0 ==> Reserve(h.ring, nb).1 == nb && Reserve(h.ring, nb).2 == c.prodProd % TWO32
    ensures Reserve(h.ring, nb).1 == 0 && nb > 0 ==> h.released + h.ring.size - c.prodProd < nb
  {
    var low: u32 := nb % TWO32;
    assert nb < TWO32 ==> low == nb;
    c' := NbFreeKeeps(h, c, low);
    var (r', free) := NbFree(h.ring, low);
    if free >= nb {
      assert Reserve(h.ring, nb) == (r'.(prodCachedProd := Add32(r'.prodCachedProd, nb)), nb, r'.prodCachedProd);
      Add32OfCounter(c.prodProd, nb);
      c' := c'.(prodProd := c.prodProd + nb);
    } else {
      assert Reserve(h.ring, nb) == (r', 0, 0);
    }
  }

  /** Peeking moves the consumer's cached indices and nothing else; it obtains what is asked for, as
      far as it is known to be submitted. */
  lemma {:induction false} PeekKeeps<T>(h: History<T>, c: Counters, nb: u64) returns (c': Counters)
    requires Indices(h, c)
    ensures Peeked(h.ring) == c.consCons - h.released
    ensures Indices(h.(ring := Peek(h.ring, nb).0, seen := Known(h)), c')
    ensures Peek(h.ring, nb).0.slots == h.ring.slots
    ensures c' == c.(consCons := c.consCons + Peek(h.ring, nb).1)
    ensures Peek(h.ring, nb).1 == Min(nb % TWO32, Known(h) - c.consCons)
    ensures Peek(h.ring, nb).1 > 0 ==> Peek(h.ring, nb).2 == c.consCons % TWO32
  {
    Sub32OfCounters(c.consCons, h.released);
    Sub32OfCounters(h.seen, c.consCons);
    Sub32OfCounters(Known(h), c.consCons);
    var entries := Min(nb % TWO32, Known(h) - c.consCons);
    AvailKeeps(h, c, nb % TWO32);
    Add32OfCounter(c.consCons, entries);
    c' := c.(consCons := c.consCons + entries);
  }

  lemma {:induction false} AvailKeeps<T>(h: History<T>, c: Counters, nb: u32)
    requires Indices(h, c) && Peeked(h.ring) == c.consCons - h.released
    ensures NbAvail(h.ring, nb) == (h.ring.(consCachedProd := Known(h) % TWO32), Min(nb, Known(h) - c.consCons))
  {
    Sub32OfCounters(h.seen, c.consCons);
    Sub32OfCounters(Known(h), c.consCons);
  }

  function Min(a: int, b: int): int { if a < b then a else b }

  /** The slot of a counter, seen through the wrapped index `base + k`. */
  lemma SlotAhead<T>(r: Ring<T>, base: nat, k: nat)
    requires SizeOk(r.size)
    ensures 0 < r.size < TWO32 && Slot(r.size, Add32(base % TWO32, k)) == (base + k) % r.size < r.size
  {
    Add32OfCounter(base, k);
    SlotOfCounter(r.size, base + k);
  }

  /** Filling a reserved entry touches no other entry that is reserved or not yet released. */
  lemma {:induction false} WriteKeeps<T>(h: History<T>, c: Counters, k: u32, v: T)
    requires InvWith(h, c) && k < Reserved(h.ring)
    ensures InvWith(Next(h, DoWrite(k, v)), c)
  {
    var r, y := h.ring, |h.submitted| + k;
    Sub32OfCounters(c.prodProd, |h.submitted|);
    SlotAhead(r, |h.submitted|, k);
    var h' := Next(h, DoWrite(k, v));
    assert h'.ring.slots == r.slots[y % r.size := v];
    forall x | h.released <= x < c.prodProd && x != y ensures x % r.size != y % r.size {
      if x < y { DistinctSlots(r.size, x, y); } else { DistinctSlots(r.size, y, x); }
    }
  }

  /** Submitting publishes entries that are in their slots. */
  lemma {:induction false} SubmitKeeps<T>(h: History<T>, c: Counters, n: nat)
    requires InvWith(h, c) && n <= Reserved(h.ring)
    ensures InvWith(Next(h, DoSubmit(n)), c)
  {
    var r, h' := h.ring, Next(h, DoSubmit(n));
    Sub32OfCounters(c.prodProd, |h.submitted|);
    Add32OfCounter(|h.submitted|, n);
    forall x: nat | |h.submitted| <= x < |h'.submitted| ensures r.slots[x % r.size] == h'.submitted[x] {
      SlotAhead(r, |h.submitted|, x - |h.submitted|);
      assert h'.submitted[x] == Published(r, n)[x - |h.submitted|];
    }
  }

  lemma {:induction false} ReleaseKeeps<T>(h: History<T>, c: Counters, n: nat)
    requires InvWith(h, c) && n <= Peeked(h.ring)
    ensures InvWith(Next(h, DoRelease(n)), c)
  {
    Sub32OfCounters(c.consCons, h.released);
    Add32OfCounter(h.released, n);
  }

  /** Every allowed step keeps the invariant. */
  lemma {:induction false} StepKeeps<T>(h: History<T>, step: Step<T>)
    requires Inv(h) && Allowed(h.ring, step)
    ensures 0 < h.ring.size == |h.ring.slots| && Inv(Next(h, step))
  {
    var c :| InvWith(h, c);
    match step
    case DoReserve(nb) =>
      var c' := ReserveKeeps(h, c, nb);
      assert InvWith(Next(h, step), c');
    case DoWrite(k, v) => WriteKeeps(h, c, k, v);
    case DoSubmit(n) => SubmitKeeps(h, c, n);
    case DoPeek(nb) =>
      var c' := PeekKeeps(h, c, nb);
      assert InvWith(Next(h, step), c');
    case DoRelease(n) => ReleaseKeeps(h, c, n);
  }

  /** In every interleaving the invariant holds throughout. */
  lemma {:induction false} RunKeeps<T>(hs: seq<History<T>>, steps: seq<Step<T>>, i: nat)
    requires Run(hs, steps) && i < |hs|
    ensures Inv(hs[i])
    decreases i
  {
    if i == 0 {
      InitialInv(hs[0]);
    } else {
      RunKeeps(hs, steps, i - 1);
      StepKeeps(hs[i - 1], steps[i - 1]);
    }
  }

  /** The k-th entry held by the consumer is the (released + k)-th entry ever submitted. */
  lemma {:induction false} HeldIsSubmitted<T>(h: History<T>, k: nat)
    requires Inv(h) && k < Peeked(h.ring)
    ensures 0 < h.ring.size == |h.ring.slots| && h.released + k < |h.submitted|
    ensures Read(h.ring, Add32(h.ring.consumer, k)) == h.submitted[h.released + k]
  {
    var c :| InvWith(h, c);
    Sub32OfCounters(c.consCons, h.released);
    SlotAhead(h.ring, h.released, k);
  }

  /** What was written to an entry is what was submitted as that entry. */
  lemma SubmittedIsWritten<T>(h: History<T>, x: nat)
    requires Inv(h) && x in h.written && x < |h.submitted|
    ensures h.submitted[x] == h.written[x]
  {
    var c :| InvWith(h, c);
  }

  /** FIFO: whatever the interleaving, the k-th entry held by the consumer is the (released + k)-th
      entry ever submitted, and is what the producer last wrote to it. */
  lemma {:induction false} ConsumerReadsFifo<T>(hs: seq<History<T>>, steps: seq<Step<T>>, i: nat, k: nat)
    requires Run(hs, steps) && i < |hs| && k < Peeked(hs[i].ring)
    ensures var h := hs[i];
            && 0 < h.ring.size == |h.ring.slots|
            && h.released + k < |h.submitted|
            && Read(h.ring, Add32(h.ring.consumer, k)) == h.submitted[h.released + k]
            && (h.released + k in h.written ==>
                  Read(h.ring, Add32(h.ring.consumer, k)) == h.written[h.released + k])
  {
    var h := hs[i];
    RunKeeps(hs, steps, i);
    HeldIsSubmitted(h, k);
    if h.released + k in h.written { SubmittedIsWritten(h, h.released + k); }
  }

  /** What a peek does, told of the history: the consumer obtains as many entries as asked for, as far
      as it knows them to be submitted. */
  ghost predicate PeekOutcome<T>(h: History<T>, nb: u64) {
    var (r', n, idx) := Peek(h.ring, nb);
    && h.released + Peeked(h.ring) <= Known(h) <= |h.submitted|
    && n == Min(nb % TWO32, Known(h) - h.released - Peeked(h.ring))
    && Peeked(r') == Peeked(h.ring) + n
    && (n > 0 ==> idx == Add32(h.ring.consumer, Peeked(h.ring)))
    && (n == 0 && nb % TWO32 > 0 ==> h.released + Peeked(h.ring) == |h.submitted|)
  }

  lemma {:induction false} PeekMeans<T>(h: History<T>, nb: u64)
    requires Inv(h)
    ensures PeekOutcome(h, nb)
  {
    var c :| InvWith(h, c);
    var c' := PeekKeeps(h, c, nb);
    Sub32OfCounters(c'.consCons, h.released);
    Add32OfCounter(h.released, Peeked(h.ring));
  }

  /** A peek hands out the entries that follow those already held, as many as asked for and known to
      be submitted, and comes back empty-handed only when every submitted entry is held. */
  lemma PeekHandsOutNext<T>(hs: seq<History<T>>, steps: seq<Step<T>>, i: nat, nb: u64)
    requires Run(hs, steps) && i < |hs|
    ensures PeekOutcome(hs[i], nb)
  {
    RunKeeps(hs, steps, i);
    PeekMeans(hs[i], nb);
  }

  /** Slots neither reserved nor holding an unreleased entry. */
  function Free<T>(h: History<T>): int {
    h.released + h.ring.size - (|h.submitted| + Reserved(h.ring))
  }

  lemma OccupancyMeans<T>(h: History<T>)
    requires Inv(h)
    ensures h.released + Peeked(h.ring) <= |h.submitted| && 0 <= Free(h)
  {
    var c :| InvWith(h, c);
    Sub32OfCounters(c.consCons, h.released);
    Sub32OfCounters(c.prodProd, |h.submitted|);
  }

  /** Occupancy, reservations included, never exceeds the ring. */
  lemma {:induction false} OccupancyBounded<T>(hs: seq<History<T>>, steps: seq<Step<T>>, i: nat)
    requires Run(hs, steps) && i < |hs|
    ensures var h := hs[i];
            h.released + Peeked(h.ring) <= |h.submitted|
            && |h.submitted| + Reserved(h.ring) <= h.released + h.ring.size
  {
    RunKeeps(hs, steps, i);
    OccupancyMeans(hs[i]);
  }

  /** What a reservation does, told of the history: all or nothing, granted exactly when enough
      slots are free. */
  ghost predicate ReserveOutcome<T>(h: History<T>, nb: u64) {
    var (r', n, idx) := Reserve(h.ring, nb);
    && n == (if nb <= Free(h) then nb else 0)
    && Reserved(r') == Reserved(h.ring) + n
    && (n > 0 ==> idx == Add32(h.ring.producer, Reserved(h.ring)))
  }

  lemma {:induction false} ReserveMeans<T>(h: History<T>, nb: u64)
    requires Inv(h)
    ensures ReserveOutcome(h, nb)
  {
    var c :| InvWith(h, c);
    var c' := ReserveKeeps(h, c, nb);
    Sub32OfCounters(c.prodProd, |h.submitted|);
    Sub32OfCounters(c'.prodProd, |h.submitted|);
    Add32OfCounter(|h.submitted|, Reserved(h.ring));
  }

  /** In every run a reservation is all or nothing, and is granted exactly when enough slots are
      free, however stale the cached index. */
  lemma ReservationOutcome<T>(hs: seq<History<T>>, steps: seq<Step<T>>, i: nat, nb: u64)
    requires Run(hs, steps) && i < |hs|
    ensures ReserveOutcome(hs[i], nb)
  {
    RunKeeps(hs, steps, i);
    ReserveMeans(hs[i], nb);
  }

  /** A reservation never covers the slot of an entry the consumer has not released, nor of one
      already reserved. */
  lemma {:induction false} ReservationIsExclusive<T>(hs: seq<History<T>>, steps: seq<Step<T>>, i: nat, nb: u64,
                                                     j: nat, x: nat)
    requires Run(hs, steps) && i < |hs| && j < Reserve(hs[i].ring, nb).1
    requires hs[i].released <= x < |hs[i].submitted| + Reserved(hs[i].ring)
    ensures hs[i].ring.size > 0 && Slot(hs[i].ring.size, Add32(Reserve(hs[i].ring, nb).2, j)) != x % hs[i].ring.size
  {
    var h := hs[i];
    RunKeeps(hs, steps, i);
    var c :| InvWith(h, c);
    ReservedSlotIsFree(h, c, nb, j, x);
  }

  lemma {:induction false} ReservedSlotIsFree<T>(h: History<T>, c: Counters, nb: u64, j: nat, x: nat)
    requires Indices(h, c) && j < Reserve(h.ring, nb).1 && h.released <= x < |h.submitted| + Reserved(h.ring)
    ensures Slot(h.ring.size, Add32(Reserve(h.ring, nb).2, j)) != x % h.ring.size
  {
    var c' := ReserveKeeps(h, c, nb);
    Sub32OfCounters(c.prodProd, |h.submitted|);
    var y := c.prodProd + j;
    assert x < y < x + h.ring.size;
    SlotAhead(h.ring, c.prodProd, j);
    DistinctSlots(h.ring.size, x, y);
  }

  // ----- the operations as they update the ring structures in place

  /** The two sides' ring structures over one shared ring. The ghost fields record its history. */
  class RingBuffer<T> {
    const size: nat
    var slots: seq<T>
    var producer: u32
    var consumer: u32
    var prodCachedProd: u32
    var prodCachedCons: u32
    var consCachedProd: u32
    var consCachedCons: u32
    ghost var submitted: seq<T>
    ghost var released: nat
    ghost var seen: nat
    ghost var written: map<nat, T>

    ghost function State(): Ring<T>
      reads this
    {
      Ring(size, producer, consumer, slots, prodCachedProd, prodCachedCons, consCachedProd, consCachedCons)
    }

    ghost function Past(): History<T>
      reads this
    {
      History(State(), submitted, released, seen, written)
    }

    ghost predicate Valid()
      reads this
    {
      Inv(Past())
    }

    /** How many entries the producer has reserved and not submitted. */
    function ReservedNow(): u32
      reads this
    {
      Sub32(prodCachedProd, producer)
    }

    /** How many entries the consumer holds. */
    function PeekedNow(): u32
      reads this
    {
      Sub32(consCachedCons, consumer)
    }

    constructor (size: nat, slots: seq<T>)
      requires SizeOk(size) && |slots| == size
      ensures Valid() && Initial(Past())
    {
      this.size, this.slots := size, slots;
      producer, consumer, prodCachedProd, consCachedProd, consCachedCons := 0, 0, 0, 0, 0;
      prodCachedCons := size % TWO32;
      submitted, released, seen, written := [], 0, 0, map[];
      new;
      InitialInv(Past());
    }

    method NbFreeEntries(nb: u32) returns (n: u32)
      modifies this`prodCachedCons
      ensures (State(), n) == NbFree(old(State()), nb)
    {
      var free := Sub32(prodCachedCons, prodCachedProd);
      if free >= nb { return free; }
      prodCachedCons := Add32(consumer, size);
      return Sub32(prodCachedCons, prodCachedProd);
    }

    /** `xsk_ring_prod__reserve`: all or nothing, granted exactly when enough slots are free. */
    method ReserveEntries(nb: u64) returns (n: nat, idx: u32)
      requires Valid()
      modifies this`prodCachedProd, this`prodCachedCons
      ensures Valid() && ReservedNow() == old(ReservedNow()) + n
      ensures n == if nb <= old(Free(Past())) then nb else 0
      ensures n > 0 ==> idx == Add32(producer, old(ReservedNow()))
    {
      StepKeeps(Past(), DoReserve(nb));
      ReserveMeans(Past(), nb);
      ghost var was := State();
      var free := NbFreeEntries(nb % TWO32);
      if free < nb {
        assert (State(), 0, 0) == Reserve(was, nb);
        return 0, 0;
      }
      idx := prodCachedProd;
      prodCachedProd := Add32(prodCachedProd, nb);
      assert (State(), nb, idx) == Reserve(was, nb);
      return nb, idx;
    }

    /** Filling a reserved entry. */
    method WriteEntry(idx: u32, v: T, ghost k: u32)
      requires Valid() && k < ReservedNow() && idx == Add32(producer, k)
      modifies this`slots, this`written
      ensures Valid() && written == old(written)[|submitted| + k := v]
    {
      StepKeeps(Past(), DoWrite(k, v));
      slots := slots[Slot(size, idx) := v];
      written := written[|submitted| + k := v];
    }

    /** `xsk_ring_prod__submit`: the next reserved entries join the queue, as they were written. */
    method SubmitEntries(nb: nat)
      requires Valid() && nb <= ReservedNow()
      modifies this`producer, this`submitted
      ensures Valid() && ReservedNow() == old(ReservedNow()) - nb
      ensures |submitted| == |old(submitted)| + nb && old(submitted) <= submitted
      ensures forall x :: x in written && x < |submitted| ==> submitted[x] == written[x]
    {
      StepKeeps(Past(), DoSubmit(nb));
      SubmitMeans(Past(), nb);
      submitted := submitted + Published(State(), nb);
      producer := Add32(producer, nb);
      forall x | x in written && x < |submitted| ensures submitted[x] == written[x] {
        SubmittedIsWritten(Past(), x);
      }
    }

    method NbAvailEntries(nb: u32) returns (n: u32)
      modifies this`consCachedProd
      ensures (State(), n) == NbAvail(old(State()), nb)
    {
      var entries := Sub32(consCachedProd, consCachedCons);
      if entries == 0 {
        consCachedProd := producer;
        entries := Sub32(consCachedProd, consCachedCons);
      }
      return if entries > nb then nb else entries;
    }

    /** `xsk_ring_cons__peek`: the entries that follow those held, as many as asked for and known to be
        submitted, none only when all are held. The consumer looks for more when it holds all it
        knows of. */
    method PeekEntries(nb: u64) returns (n: nat, idx: u32)
      requires Valid()
      modifies this`consCachedProd, this`consCachedCons, this`seen
      ensures Valid() && PeekedNow() == old(PeekedNow()) + n
      ensures seen == if old(seen) == released + old(PeekedNow()) then |submitted| else old(seen)
      ensures n == Min(nb % TWO32, seen - released - old(PeekedNow()))
      ensures released + PeekedNow() <= seen <= |submitted|
      ensures n == 0 && nb % TWO32 > 0 ==> released + PeekedNow() == |submitted|
      ensures n > 0 ==> idx == Add32(consumer, old(PeekedNow()))
    {
      StepKeeps(Past(), DoPeek(nb));
      PeekMeans(Past(), nb);
      ghost var was := State();
      idx := 0;
      n := NbAvailEntries(nb % TWO32);
      if n > 0 {
        idx := consCachedCons;
        consCachedCons := Add32(consCachedCons, n);
      }
      assert (State(), n, idx) == Peek(was, nb);
      seen := Known(old(Past()));
    }

    /** Reading a held entry: the k-th is the entry submitted k after the released ones. */
    method ReadEntry(idx: u32, ghost k: nat) returns (v: T)
      requires Valid() && k < PeekedNow() && idx == Add32(consumer, k)
      ensures released + k < |submitted| && v == submitted[released + k]
    {
      HeldIsSubmitted(Past(), k);
      v := slots[Slot(size, idx)];
    }

    /** `xsk_ring_cons__release`: the oldest held entries leave the queue. */
    method ReleaseEntries(nb: nat)
      requires Valid() && nb <= PeekedNow()
      modifies this`consumer, this`released
      ensures Valid() && released == old(released) + nb && PeekedNow() == old(PeekedNow()) - nb
    {
      StepKeeps(Past(), DoRelease(nb));
      ReleaseMeans(Past(), nb);
      consumer := Add32(consumer, nb);
      released := released + nb;
    }
  }

  lemma SubmitMeans<T>(h: History<T>, n: nat)
    requires Inv(h) && n <= Reserved(h.ring)
    ensures Reserved(Submit(h.ring, n)) == Reserved(h.ring) - n
  {
    var c :| InvWith(h, c);
    Sub32OfCounters(c.prodProd, |h.submitted|);
    Add32OfCounter(|h.submitted|, n);
    Sub32OfCounters(c.prodProd, |h.submitted| + n);
  }

  lemma ReleaseMeans<T>(h: History<T>, n: nat)
    requires Inv(h) && n <= Peeked(h.ring)
    ensures Peeked(Release(h.ring, n)) == Peeked(h.ring) - n
  {
    var c :| InvWith(h, c);
    Sub32OfCounters(c.consCons, h.released);
    Add32OfCounter(h.released, n);
    Sub32OfCounters(c.consCons, h.released + n);
  }

  lemma Add32Twice(a: u32, m: nat, n: nat)
    ensures Add32(Add32(a, m), n) == Add32(a, m + n)
  {
  }

  /** Reads `n` held entries, the first of them at `idx`. */
  method ReadHeld<T>(b: RingBuffer<T>, idx: u32, n: nat, ghost held: nat) returns (got: seq<T>)
    requires b.Valid() && held + n <= b.PeekedNow() && b.released + held + n <= |b.submitted|
    requires n > 0 ==> idx == Add32(b.consumer, held)
    ensures got == b.submitted[b.released + held..b.released + held + n]
  {
    got := [];
    ghost var base, s := b.released + held, b.submitted;
    var j := 0;
    while j < n
      invariant j <= n && got == s[base..base + j]
    {
      Add32Twice(b.consumer, held, j);
      var v := b.ReadEntry(Add32(idx, j), held + j);
      got := got + [v];
      j := j + 1;
    }
  }

  /** The consumer takes what it can get and reads it, entry by entry. */
  method PeekAndRead<T>(b: RingBuffer<T>, nb: u64) returns (got: seq<T>)
    requires b.Valid()
    modifies b`consCachedProd, b`consCachedCons, b`seen
    ensures b.Valid() && b.PeekedNow() == old(b.PeekedNow()) + |got|
    ensures b.seen == if old(b.seen) == b.released + old(b.PeekedNow()) then |b.submitted| else old(b.seen)
    ensures |got| == Min(nb % TWO32, b.seen - b.released - old(b.PeekedNow()))
    ensures b.released + b.PeekedNow() <= |b.submitted|
    ensures got == b.submitted[b.released + old(b.PeekedNow())..b.released + b.PeekedNow()]
  {
    ghost var held: nat := b.PeekedNow();
    var n, idx := b.PeekEntries(nb);
    got := ReadHeld(b, idx, n, held);
  }

  // ----- the queue that the ring refines

  /** The queue in unbounded numbers: entries submitted, reserved, released, held by the consumer, and
      known to it as submitted; and what was last written to each entry. */
  datatype Tally<T> = Tally(submitted: nat, reserved: nat, released: nat, held: nat, seen: nat, written: map<nat, T>)

  /** One step of the queue of a given size; steps a side is not allowed to take change nothing. */
  function TallyNext<T>(t: Tally<T>, size: nat, step: Step<T>): Tally<T> {
    match step
    case DoReserve(nb) =>
      if nb <= t.released + size - t.submitted - t.reserved then t.(reserved := t.reserved + nb) else t
    case DoWrite(k, v) => if k < t.reserved then t.(written := t.written[t.submitted + k := v]) else t
    case DoSubmit(n) =>
      if n <= t.reserved then t.(submitted := t.submitted + n, reserved := t.reserved - n) else t
    case DoPeek(nb) =>
      var seen := if t.seen == t.released + t.held then t.submitted else t.seen;
      var n := Min(nb % TWO32, seen - t.released - t.held);
      if n < 0 then t else t.(held := t.held + n, seen := seen)
    case DoRelease(n) => if n <= t.held then t.(released := t.released + n, held := t.held - n) else t
  }

  function TallyAfter<T>(size: nat, steps: seq<Step<T>>, k: nat): Tally<T>
    requires k <= |steps|
  {
    if k == 0 then Tally(0, 0, 0, 0, 0, map[]) else TallyNext(TallyAfter(size, steps, k - 1), size, steps[k - 1])
  }

  ghost function TallyOf<T>(b: RingBuffer<T>): Tally<T>
    reads b
  {
    Tally(|b.submitted|, b.ReservedNow(), b.released, b.PeekedNow(), b.seen, b.written)
  }

  /** Any interleaving of the two sides on a fresh ring; steps a side is not allowed to take are left
      out. The ring goes through the states of the queue, wrapped indices and cached copies
      notwithstanding, and all that the consumer ever reads, in order, is all that was submitted up to
      what it holds, each entry as it was last written. */
  method Drive<T>(b: RingBuffer<T>, steps: seq<Step<T>>) returns (got: seq<T>)
    requires b.Valid() && Initial(b.Past())
    modifies b
    ensures b.Valid() && 0 <= Free(b.Past())
    ensures TallyOf(b) == TallyAfter(b.size, steps, |steps|)
    ensures |got| == b.released + b.PeekedNow() <= |b.submitted| && got == b.submitted[..|got|]
    ensures forall x :: x in b.written && x < |got| ==> got[x] == b.written[x]
  {
    got := [];
    for i := 0 to |steps|
      invariant b.Valid() && |got| == b.released + b.PeekedNow() <= |b.submitted| && got == b.submitted[..|got|]
      invariant TallyOf(b) == TallyAfter(b.size, steps, i)
    {
      var more := DriveOne(b, steps[i]);
      got := got + more;
    }
    OccupancyMeans(b.Past());
    ReadIsWritten(b.Past(), got);
  }

  lemma {:induction false} ReadIsWritten<T>(h: History<T>, got: seq<T>)
    requires Inv(h) && got <= h.submitted
    ensures forall x :: x in h.written && x < |got| ==> got[x] == h.written[x]
  {
    forall x | x in h.written && x < |got| ensures got[x] == h.written[x] { SubmittedIsWritten(h, x); }
  }

  method DriveOne<T>(b: RingBuffer<T>, step: Step<T>) returns (got: seq<T>)
    requires b.Valid()
    modifies b
    ensures b.Valid() && old(b.submitted) <= b.submitted
    ensures TallyOf(b) == TallyNext(old(TallyOf(b)), b.size, step)
    ensures b.released + b.PeekedNow() == old(b.released) + old(b.PeekedNow()) + |got| <= |b.submitted|
    ensures got == b.submitted[old(b.released) + old(b.PeekedNow())..b.released + b.PeekedNow()]
  {
    OccupancyMeans(b.Past());
    got := [];
    match step
    case DoPeek(nb) => got := PeekAndRead(b, nb);
    case DoRelease(n) => if n <= b.PeekedNow() { b.ReleaseEntries(n); }
    case _ => DriveProducer(b, step);
  }

  method DriveProducer<T>(b: RingBuffer<T>, step: Step<T>)
    requires b.Valid() && !step.DoPeek? && !step.DoRelease?
    modifies b`slots, b`producer, b`prodCachedProd, b`prodCachedCons, b`submitted, b`written
    ensures b.Valid() && old(b.submitted) <= b.submitted
    ensures TallyOf(b) == TallyNext(old(TallyOf(b)), b.size, step)
  {
    match step
    case DoReserve(nb) =>
      var n, idx := b.ReserveEntries(nb);
    case DoWrite(k, v) =>
      if k < b.ReservedNow() { b.WriteEntry(Add32(b.producer, k), v, k); }
    case DoSubmit(n) =>
      if n <= b.ReservedNow() { b.SubmitEntries(n); }
  }
}
