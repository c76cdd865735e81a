/**
 FIDe's packet counters: one global count and one count per source address for the current and the
 previous interval, kept while packets arrive one at a time and rolled over when an interval ends.
 The entropy itself is not modelled, only whether a source's entropy came out as zero.
 */
module FideCounters {
  import opened Powers
  import opened FixedPoint
  import opened FideIntervals

  const LOGGER_MAP_SIZE: nat := 100_000

  datatype Entry = Entry(prev: int, cur: int)

  type Logger = map<u32, Entry>

  datatype Counters = Counters(logger: Logger, prevPkt: int, curPkt: int, intBits: int, timestamp: Time)

  /** `Ignored` stands for packets that are not IPv4, are cut short or come from a blocked source.
      `flat` tells for which sources an entropy of zero would come out if this packet ends an
      interval. */
  datatype Packet = Ignored | Counted(ip: u32, ts: Time, flat: u32 -> bool)

  // ----- the steps of the program

  /** An atomic increment of a 32-bit signed counter. */
  function Inc(x: int): int { ToInt32(x + 1) }

  /** The greatest count that fits `intBits` bits with a sign, as the program computes it. */
  function Greatest(intBits: int): int { ToInt32(ToInt32(Pow2((intBits - 1) % 32)) - 1) }

  function CountGlobal(c: Counters): Counters {
    var cur := Inc(c.curPkt);
    c.(curPkt := cur, intBits := if cur > Greatest(c.intBits) then Inc(c.intBits) else c.intBits)
  }

  /** A source that is not known yet is left out when the logger is full. */
  function CountSource(logger: Logger, ip: u32): Logger {
    if ip in logger then logger[ip := Entry(logger[ip].prev, Inc(logger[ip].cur))]
    else if |logger| < LOGGER_MAP_SIZE then logger[ip := Entry(0, 1)]
    else logger
  }

  /** Detection: sources that were silent in the interval go, unless their entropy is zero; the
      others start over. */
  function RolledOver(logger: Logger, flat: u32 -> bool): Logger {
    map ip | ip in logger && (flat(ip) || logger[ip].cur != 0) :: Entry(logger[ip].cur, 0)
  }

  /** The end of a packet's handling: start the clock, roll over, or neither. */
  function Timed(c: Counters, ts: Time, flat: u32 -> bool): Counters {
    if ts > c.timestamp + INTERVAL then
      match Decide(ts, c.timestamp)
      case NotOver => c
      case FirstClaim => c.(timestamp := ts)
      case NextClaim => Counters(RolledOver(c.logger, flat), c.curPkt, 0, 4, ts)
    else c
  }

  function Received(c: Counters, p: Packet): Counters {
    match p
    case Ignored => c
    case Counted(ip, ts, flat) =>
      Timed(CountGlobal(c).(logger := CountSource(c.logger, ip)), ts, flat)
  }

  // ----- what one packet does

  /** A packet whose source is left out. */
  predicate Lost(c: Counters, p: Packet) {
    p.Counted? && p.ip !in c.logger && |c.logger| >= LOGGER_MAP_SIZE
  }

  /** A packet that ends an interval: later than one interval after the stored time, if one is stored. */
  predicate RollsOver(c: Counters, p: Packet) {
    p.Counted? && p.ts > c.timestamp + INTERVAL && c.timestamp != 0
  }

  /** The counts of a source, zero if it is not known. */
  function CurOf(logger: Logger, ip: u32): int { if ip in logger then logger[ip].cur else 0 }
  function PrevOf(logger: Logger, ip: u32): int { if ip in logger then logger[ip].prev else 0 }

  /** The effect on one source: a packet of its own counts, the end of an interval makes the current
      count the previous one, and then a source that was silent is forgotten unless it is flat. */
  predicate SourceEffect(c: Counters, p: Packet, d: Counters, ip: u32) {
    var own := p.Counted? && ip == p.ip && !Lost(c, p);
    var cur := if own then ToInt32(CurOf(c.logger, ip) + 1) else CurOf(c.logger, ip);
    && (if RollsOver(c, p) then CurOf(d.logger, ip) == 0 && PrevOf(d.logger, ip) == cur
        else CurOf(d.logger, ip) == cur && PrevOf(d.logger, ip) == PrevOf(c.logger, ip))
    && (ip in d.logger <==> (ip in c.logger || own) && (RollsOver(c, p) ==> p.flat(ip) || cur != 0))
  }

  /** The effect on the clock, the global counts and every source. A counted packet more than an
      interval after the stored time stores its own, the first one included. */
  ghost predicate Effect(c: Counters, p: Packet, d: Counters) {
    && d.timestamp == (if p.Counted? && p.ts > c.timestamp + INTERVAL then p.ts else c.timestamp)
    && (if RollsOver(c, p) then d.prevPkt == ToInt32(c.curPkt + 1) && d.curPkt == 0 && d.intBits == 4
        else d.prevPkt == c.prevPkt && d.curPkt == if p.Counted? then ToInt32(c.curPkt + 1) else c.curPkt)
    && forall ip :: SourceEffect(c, p, d, ip)
  }

  lemma {:induction false} ReceivedEffect(c: Counters, p: Packet)
    ensures Effect(c, p, Received(c, p))
  {
    forall ip ensures SourceEffect(c, p, Received(c, p), ip) { ReceivedSource(c, p, ip); }
  }

  lemma {:induction false} ReceivedSource(c: Counters, p: Packet, ip: u32)
    ensures SourceEffect(c, p, Received(c, p), ip)
  {
    if p.Counted? {
      var logger := CountSource(c.logger, p.ip);
      assert ip in logger <==> ip in c.logger || (ip == p.ip && !Lost(c, p));
      if RollsOver(c, p) { assert Received(c, p).logger == RolledOver(logger, p.flat); }
    }
  }

  class Detector {
    var logger: Logger
    var prevPkt: int
    var curPkt: int
    var intBits: int
    var timestamp: Time

    ghost function State(): Counters
      reads this
    {
      Counters(logger, prevPkt, curPkt, intBits, timestamp)
    }

    /** The loop of `detection` over the logger, in any order. */
    method DetectAll(flat: u32 -> bool)
      modifies this`logger
      ensures logger == RolledOver(old(logger), flat)
    {
      var todo := logger.Keys;
      ghost var was := logger;
      while todo != {}
        invariant todo <= was.Keys
        invariant PartlyRolled(was, logger, todo, flat)
        decreases |todo|
      {
        var ip :| ip in todo;
        RollOne(was, logger, todo, ip, flat);
        if flat(ip) {
          logger := logger[ip := Entry(logger[ip].cur, 0)];
        } else if logger[ip].cur == 0 {
          logger := logger - {ip};
        } else {
          logger := logger[ip := Entry(logger[ip].cur, 0)];
        }
        todo := todo - {ip};
      }
    }

    /** `xdp_filter_func` on one packet. */
    method Receive(p: Packet)
      modifies this
      ensures State() == Received(old(State()), p) && Effect(old(State()), p, State())
    {
      ReceivedEffect(State(), p);
      if p.Ignored? { return; }
      curPkt := Inc(curPkt);
      if curPkt > Greatest(intBits) { intBits := Inc(intBits); }
      if p.ip in logger {
        logger := logger[p.ip := Entry(logger[p.ip].prev, Inc(logger[p.ip].cur))];
      } else if |logger| < LOGGER_MAP_SIZE {
        logger := logger[p.ip := Entry(0, 1)];
      }
      if p.ts > timestamp + INTERVAL {
        var verdict := Decide(p.ts, timestamp);
        if verdict.FirstClaim? {
          timestamp := p.ts;
          return;
        }
        if verdict.NotOver? { return; }
        timestamp := p.ts;
        DetectAll(p.flat);
        prevPkt := curPkt;
        curPkt := 0;
        intBits := 4;
      }
    }
  }

  /** The sources in `todo` are still to be visited. */
  ghost predicate PartlyRolled(was: Logger, now: Logger, todo: set<u32>, flat: u32 -> bool) {
    forall ip: u32 ::
      if ip in was && ip in todo then ip in now && now[ip] == was[ip]
      else if ip in RolledOver(was, flat) then ip in now && now[ip] == RolledOver(was, flat)[ip]
      else ip !in now
  }

  lemma RollOne(was: Logger, now: Logger, todo: set<u32>, ip: u32, flat: u32 -> bool)
    requires PartlyRolled(was, now, todo, flat) && ip in todo && todo <= was.Keys
    ensures ip in now && now[ip] == was[ip]
    ensures PartlyRolled(was, if !flat(ip) && now[ip].cur == 0 then now - {ip} else now[ip := Entry(now[ip].cur, 0)],
                         todo - {ip}, flat)
  {
  }

  // ----- sums

  /** Some key of the map. */
  ghost function Pick(m: map<u32, int>): (k: u32)
    requires |m| > 0
    ensures k in m
  {
    var k :| k in m;
    k
  }

  ghost function Sum(m: map<u32, int>): int
    decreases |m|
  {
    if |m| == 0 then 0 else m[Pick(m)] + Sum(m - {Pick(m)})
  }

  function Curs(logger: Logger): map<u32, int> { map ip | ip in logger :: logger[ip].cur }

  function Prevs(logger: Logger): map<u32, int> { map ip | ip in logger :: logger[ip].prev }

  /** The entry the sum takes first. */
  lemma SumTakes(m: map<u32, int>) returns (p: u32)
    requires |m| > 0
    ensures p in m && Sum(m) == m[p] + Sum(m - {p})
  {
    p := Pick(m);
  }

  lemma {:induction false} WithoutBoth(m: map<u32, int>, p: u32, k: u32)
    requires p in m && k in m && p != k
    ensures m - {p} - {k} == m - {k} - {p}
    ensures |m - {p}| < |m| && |m - {k}| < |m|
    ensures k in m - {p} && p in m - {k} && (m - {p})[k] == m[k] && (m - {k})[p] == m[p]
  {
    assert (m - {p}).Keys == m.Keys - {p} && (m - {k}).Keys == m.Keys - {k};
  }

  lemma {:induction false} SumWithout(m: map<u32, int>, k: u32)
    requires k in m
    ensures Sum(m) == m[k] + Sum(m - {k})
    decreases |m|
  {
    var p := SumTakes(m);
    if p != k {
      WithoutBoth(m, p, k);
      SumWithout(m - {p}, k);
      SumWithout(m - {k}, p);
    }
  }

  lemma {:induction false} SumPut(m: map<u32, int>, k: u32, v: int)
    ensures Sum(m[k := v]) == Sum(m) + v - (if k in m then m[k] else 0)
  {
    SumWithout(m[k := v], k);
    if k in m {
      SumWithout(m, k);
      assert m[k := v] - {k} == m - {k};
    } else {
      assert m[k := v] - {k} == m;
    }
  }

  /** Entries that are zero may go. */
  lemma {:induction false} SumDropZeros(m: map<u32, int>, kept: map<u32, int>)
    requires DropsZeros(m, kept)
    ensures Sum(m) == Sum(kept)
    decreases |m|
  {
    if |m| > 0 {
      var k := Pick(m);
      SumWithout(m, k);
      if k in kept { SumWithout(kept, k); }
      DropsZerosWithout(m, kept, k);
      SumDropZeros(m - {k}, kept - {k});
    } else {
      assert kept == m;
    }
  }

  /** `kept` is `m` without some entries that are zero. */
  ghost predicate DropsZeros(m: map<u32, int>, kept: map<u32, int>) {
    kept.Keys <= m.Keys && forall k :: k in m ==> m[k] == if k in kept then kept[k] else 0
  }

  lemma {:induction false} DropsZerosWithout(m: map<u32, int>, kept: map<u32, int>, k: u32)
    requires DropsZeros(m, kept) && k in m
    ensures DropsZeros(m - {k}, kept - {k}) && |m - {k}| < |m| && (k !in kept ==> kept - {k} == kept)
  {
    assert (m - {k}).Keys == m.Keys - {k};
  }

  lemma {:induction false} SumAtLeastEach(m: map<u32, int>, k: u32)
    requires k in m && forall i :: i in m ==> m[i] >= 0
    ensures m[k] <= Sum(m)
  {
    SumWithout(m, k);
    SumNonNegative(m - {k});
  }

  lemma {:induction false} SumNonNegative(m: map<u32, int>)
    requires forall i :: i in m ==> m[i] >= 0
    ensures Sum(m) >= 0
    decreases |m|
  {
    if |m| > 0 {
      var k :| k in m;
      SumWithout(m, k);
      SumNonNegative(m - {k});
    }
  }

  // ----- what each step does to the sums

  /** Counting a source adds one, up to 32-bit wrap-around of that source's count, unless the
      source was left out. */
  lemma {:induction false} CountSourceSums(logger: Logger, ip: u32)
    ensures Sum(Prevs(CountSource(logger, ip))) == Sum(Prevs(logger))
    ensures Sum(Curs(CountSource(logger, ip))) == Sum(Curs(logger))
              + (if ip in logger then Inc(logger[ip].cur) - logger[ip].cur
                 else if |logger| < LOGGER_MAP_SIZE then 1 else 0)
  {
    if ip in logger {
      PutEntrySums(logger, ip, Entry(logger[ip].prev, Inc(logger[ip].cur)));
    } else if |logger| < LOGGER_MAP_SIZE {
      PutEntrySums(logger, ip, Entry(0, 1));
    }
  }

  lemma PutEntrySums(logger: Logger, ip: u32, e: Entry)
    ensures Sum(Prevs(logger[ip := e])) == Sum(Prevs(logger)) + e.prev - if ip in logger then logger[ip].prev else 0
    ensures Sum(Curs(logger[ip := e])) == Sum(Curs(logger)) + e.cur - if ip in logger then logger[ip].cur else 0
  {
    SumPut(Prevs(logger), ip, e.prev);
    SumPut(Curs(logger), ip, e.cur);
    PutEntryMaps(logger, ip, e);
  }

  lemma PutEntryMaps(logger: Logger, ip: u32, e: Entry)
    ensures Prevs(logger[ip := e]) == Prevs(logger)[ip := e.prev]
    ensures Curs(logger[ip := e]) == Curs(logger)[ip := e.cur]
  {
  }

  /** A rollover turns the current counts into the previous ones. */
  lemma {:induction false} RolledOverSums(logger: Logger, flat: u32 -> bool)
    ensures Sum(Prevs(RolledOver(logger, flat))) == Sum(Curs(logger))
    ensures Sum(Curs(RolledOver(logger, flat))) == 0
  {
    SumDropZeros(Curs(logger), Prevs(RolledOver(logger, flat)));
    SumDropZeros(Curs(RolledOver(logger, flat)), map[]);
  }

  // ----- conservation

  /** The counters together with the packets whose source was left out, per interval. */
  datatype Ledger = Ledger(c: Counters, lostPrev: nat, lostCur: nat)

  function Entered(l: Ledger, p: Packet): Ledger {
    var lost := l.lostCur + if Lost(l.c, p) then 1 else 0;
    if RollsOver(l.c, p) then Ledger(Received(l.c, p), lost, 0)
    else Ledger(Received(l.c, p), l.lostPrev, lost)
  }

  /** The empty state: no source known, nothing counted, four bits. */
  predicate IsStart(l: Ledger) {
    && |l.c.logger| == 0 && l.c.prevPkt == 0 && l.c.curPkt == 0 && l.c.intBits == 4 && l.c.timestamp == 0
    && l.lostPrev == 0 && l.lostCur == 0
  }

  /** The ledger after the first `n` packets. */
  function After(start: Ledger, ps: seq<Packet>, n: nat): Ledger
    requires n <= |ps|
  {
    if n == 0 then start else Entered(After(start, ps, n - 1), ps[n - 1])
  }

  ghost function CurGap(l: Ledger): int { Sum(Curs(l.c.logger)) + l.lostCur - l.c.curPkt }
  ghost function PrevGap(l: Ledger): int { Sum(Prevs(l.c.logger)) + l.lostPrev - l.c.prevPkt }

  lemma IncCongruent(x: int)
    ensures (Inc(x) - x - 1) % TWO32 == 0
  {
  }

  lemma CongruentSum(a: int, b: int, c: int)
    requires a % TWO32 == 0 && b % TWO32 == 0 && c % TWO32 == 0
    ensures (a + b - c) % TWO32 == 0
  {
  }

  /** How far a packet's two increments are from adding one. */
  function Wrap(c: Counters, p: Packet): int {
    if p.Ignored? then 0
    else
      (if p.ip in c.logger then Inc(c.logger[p.ip].cur) - c.logger[p.ip].cur - 1 else 0)
      - (Inc(c.curPkt) - c.curPkt - 1)
  }

  /** The gaps after a packet that ends no interval. */
  lemma {:induction false} GapsWithin(l: Ledger, p: Packet)
    requires !RollsOver(l.c, p)
    ensures CurGap(Entered(l, p)) == CurGap(l) + Wrap(l.c, p) && PrevGap(Entered(l, p)) == PrevGap(l)
  {
    if p.Counted? {
      EnteredIs(l, p);
      CountSourceSums(l.c.logger, p.ip);
    }
  }

  /** The gaps after a packet that ends an interval. */
  lemma {:induction false} GapsAcross(l: Ledger, p: Packet)
    requires RollsOver(l.c, p)
    ensures CurGap(Entered(l, p)) == 0 && PrevGap(Entered(l, p)) == CurGap(l) + Wrap(l.c, p)
  {
    EnteredIs(l, p);
    CountSourceSums(l.c.logger, p.ip);
    RolledOverSums(CountSource(l.c.logger, p.ip), p.flat);
  }

  lemma WrapCongruent(c: Counters, p: Packet)
    ensures Wrap(c, p) % TWO32 == 0
  {
    IncCongruent(c.curPkt);
    if p.Counted? && p.ip in c.logger {
      var x := c.logger[p.ip].cur;
      IncCongruent(x);
      CongruentSum(Inc(x) - x - 1, 0, Inc(c.curPkt) - c.curPkt - 1);
    } else {
      CongruentSum(0, 0, Inc(c.curPkt) - c.curPkt - 1);
    }
  }

  /** The counts of all sources and the packets left out add up to the global counts, modulo 2^32. */
  ghost predicate Balanced(l: Ledger) { CurGap(l) % TWO32 == 0 && PrevGap(l) % TWO32 == 0 }

  /** Over every run, in 32-bit arithmetic: the counts of all sources and the packets of sources
      left out add up to the global count, for the current and for the previous interval. */
  lemma {:induction false} Conserved(start: Ledger, ps: seq<Packet>, n: nat)
    requires IsStart(start) && n <= |ps|
    ensures Balanced(After(start, ps, n))
  {
    if n > 0 {
      Conserved(start, ps, n - 1);
      StepConserves(After(start, ps, n - 1), ps[n - 1], After(start, ps, n));
    } else {
      StartConserved(start);
    }
  }

  lemma StartConserved(l: Ledger)
    requires IsStart(l)
    ensures Balanced(l)
  {
    StartExact(l);
  }

  /** What a counted packet leaves. */
  lemma {:induction false} EnteredIs(l: Ledger, p: Packet)
    requires p.Counted?
    ensures var e, logger, mid := Entered(l, p), CountSource(l.c.logger, p.ip), CountGlobal(l.c);
            var lost := l.lostCur + if Lost(l.c, p) then 1 else 0;
            if RollsOver(l.c, p)
            then e.c.logger == RolledOver(logger, p.flat) && e.c.prevPkt == mid.curPkt && e.c.curPkt == 0
                 && e.c.intBits == 4 && e.lostPrev == lost && e.lostCur == 0
            else e.c.logger == logger && e.c.prevPkt == l.c.prevPkt && e.c.curPkt == mid.curPkt
                 && e.c.intBits == mid.intBits && e.lostPrev == l.lostPrev && e.lostCur == lost
  {
  }

  lemma {:induction false} StepConserves(l: Ledger, p: Packet, e: Ledger)
    requires Balanced(l) && e == Entered(l, p)
    ensures Balanced(e)
  {
    WrapCongruent(l.c, p);
    CongruentSum(CurGap(l), Wrap(l.c, p), 0);
    if RollsOver(l.c, p) { GapsAcross(l, p); } else { GapsWithin(l, p); }
  }

  // ----- exact counts while no interval reaches 2^30 packets

  const LIMIT: int := 0x4000_0000

  /** Bits for the count and its sign, at least four. */
  function BitsFor(count: nat): int {
    if BitLength(count) + 1 < 4 then 4 else BitLength(count) + 1
  }

  ghost predicate Exact(l: Ledger) {
    && CurGap(l) == 0 && PrevGap(l) == 0
    && (forall ip :: ip in l.c.logger ==> l.c.logger[ip].cur >= 0)
    && l.c.curPkt >= 0
    && l.c.intBits == BitsFor(l.c.curPkt)
  }

  /** The bit length is the least exponent whose power of two exceeds the number. */
  lemma {:induction false} BitLengthOrder(x: nat, n: nat)
    ensures BitLength(x) <= n <==> x < Pow2(n)
    decreases n
  {
    if n > 0 && x > 0 { BitLengthOrder(x / 2, n - 1); }
  }

  lemma {:induction false} GreatestIs(b: nat)
    requires b <= 30
    ensures Greatest(b + 1) == Pow2(b) - 1
  {
    Pow2Of64();
    Pow2Mono(b, 30);
    ModUnique(b, 32, 0, b);
    assert Pow2(31) == 2 * Pow2(30);
    GreatestOf(Pow2(b));
  }

  lemma GreatestOf(p: nat)
    requires 0 < p < TWO31
    ensures ToInt32(ToInt32(p) - 1) == p - 1
  {
  }

  lemma ShortCount(cur: nat)
    requires cur < LIMIT
    ensures BitLength(cur) <= 30
  {
    Pow2Of64();
    assert Pow2(31) == 2 * Pow2(30);
    BitLengthOrder(cur, 30);
  }

  /** The bit count follows the packet count. */
  lemma BitsFollow(cur: nat)
    requires cur < LIMIT
    ensures 4 <= BitsFor(cur) <= 31
    ensures BitsFor(cur + 1) == if cur + 1 > Greatest(BitsFor(cur)) then BitsFor(cur) + 1 else BitsFor(cur)
  {
    ShortCount(cur);
    var b := BitsFor(cur) - 1;
    GreatestIs(b);
    LengthOfNext(cur, b);
  }

  /** How one more changes the bit length, seen from a bound on it. */
  lemma LengthOfNext(cur: nat, b: nat)
    requires BitLength(cur) <= b
    ensures BitLength(cur) <= BitLength(cur + 1) <= b + 1
    ensures BitLength(cur + 1) <= b <==> cur + 1 < Pow2(b)
  {
    BitLengthOrder(cur, b);
    BitLengthOrder(cur + 1, b);
    BitLengthOrder(cur + 1, b + 1);
    BitLengthOrder(cur + 1, BitLength(cur + 1));
    BitLengthOrder(cur, BitLength(cur + 1));
  }

  lemma {:induction false} CountGlobalExact(c: Counters)
    requires 0 <= c.curPkt < LIMIT && c.intBits == BitsFor(c.curPkt)
    ensures var d := CountGlobal(c);
            d.curPkt == c.curPkt + 1 && d.intBits == BitsFor(d.curPkt)
  {
    BitsFollow(c.curPkt);
  }

  /** No source's count wraps around. */
  lemma {:induction false} SourceExact(l: Ledger, ip: u32)
    requires Exact(l) && l.c.curPkt < LIMIT
    ensures ip in l.c.logger ==> Inc(l.c.logger[ip].cur) == l.c.logger[ip].cur + 1
  {
    if ip in l.c.logger { SumAtLeastEach(Curs(l.c.logger), ip); }
  }

  lemma NoWrap(l: Ledger, p: Packet)
    requires Exact(l) && l.c.curPkt < LIMIT
    ensures Wrap(l.c, p) == 0
  {
    if p.Counted? { SourceExact(l, p.ip); }
  }

  /** Counts stay non-negative and the bit count follows. */
  lemma {:induction false} ShapeExact(l: Ledger, p: Packet, e: Ledger)
    requires Exact(l) && l.c.curPkt < LIMIT && e == Entered(l, p)
    ensures forall ip :: ip in e.c.logger ==> e.c.logger[ip].cur >= 0
    ensures e.c.curPkt >= 0 && e.c.intBits == BitsFor(e.c.curPkt)
  {
    if p.Counted? {
      EnteredIs(l, p);
      SourceExact(l, p.ip);
      CountGlobalExact(l.c);
    }
  }

  lemma {:induction false} StepExact(l: Ledger, p: Packet, e: Ledger)
    requires Exact(l) && l.c.curPkt < LIMIT && e == Entered(l, p)
    ensures Exact(e)
  {
    NoWrap(l, p);
    ShapeExact(l, p, e);
    if RollsOver(l.c, p) { GapsAcross(l, p); } else { GapsWithin(l, p); }
  }

  /** The interval under way before packet `i` has fewer than 2^30 packets. */
  predicate BelowLimit(start: Ledger, ps: seq<Packet>, i: nat)
    requires i <= |ps|
  {
    After(start, ps, i).c.curPkt < LIMIT
  }

  /** Packet `i` is not lost to a full logger. */
  predicate HasRoom(start: Ledger, ps: seq<Packet>, i: nat)
    requires i < |ps|
  {
    !Lost(After(start, ps, i).c, ps[i])
  }

  lemma StartExact(l: Ledger)
    requires IsStart(l)
    ensures Exact(l)
  {
    assert Curs(l.c.logger).Keys == l.c.logger.Keys && Prevs(l.c.logger).Keys == l.c.logger.Keys;
  }

  /** While no interval reaches 2^30 packets the counts are exact and the bit count is that of the
      packet count. */
  lemma {:induction false} ExactRun(start: Ledger, ps: seq<Packet>, n: nat)
    requires IsStart(start) && n <= |ps| && forall i :: 0 <= i < n ==> BelowLimit(start, ps, i)
    ensures Exact(After(start, ps, n))
  {
    if n > 0 {
      ExactRun(start, ps, n - 1);
      assert BelowLimit(start, ps, n - 1);
      StepExact(After(start, ps, n - 1), ps[n - 1], After(start, ps, n));
    } else {
      StartExact(start);
    }
  }

  /** Then the counts of all sources add up to the global count if and only if no source was left
      out, for the current and for the previous interval. */
  lemma SumsMatchIffNoneLost(start: Ledger, ps: seq<Packet>, n: nat, l: Ledger)
    requires IsStart(start) && n <= |ps| && l == After(start, ps, n)
    requires forall i :: 0 <= i < n ==> BelowLimit(start, ps, i)
    ensures Sum(Curs(l.c.logger)) == l.c.curPkt <==> l.lostCur == 0
    ensures Sum(Prevs(l.c.logger)) == l.c.prevPkt <==> l.lostPrev == 0
    ensures l.c.curPkt >= 0 && l.c.intBits == BitsFor(l.c.curPkt)
  {
    ExactRun(start, ps, n);
  }

  /** Nothing is ever left out of a run in which the logger has room for every new source. */
  lemma {:induction false} NothingLost(start: Ledger, ps: seq<Packet>, n: nat)
    requires IsStart(start) && n <= |ps| && forall i :: 0 <= i < n ==> HasRoom(start, ps, i)
    ensures After(start, ps, n).lostCur == 0 && After(start, ps, n).lostPrev == 0
  {
    if n > 0 {
      NothingLost(start, ps, n - 1);
      assert HasRoom(start, ps, n - 1);
    }
  }

  // ----- the counters, told of the packets alone

  /** The time stored before packet `n`: that of the last packet which came more than an interval
      after the one stored before it, the clock standing at 0 at first. */
  function LastStored(ps: seq<Packet>, n: nat): Time
    requires n <= |ps|
  {
    if n == 0 then 0
    else
      var t, p := LastStored(ps, n - 1), ps[n - 1];
      if p.Counted? && p.ts > t + INTERVAL then p.ts else t
  }

  /** Packet `n` comes more than an interval after the stored time, and is not the first to do so. */
  predicate EndsInterval(ps: seq<Packet>, n: nat)
    requires n < |ps|
  {
    ps[n].Counted? && LastStored(ps, n) != 0 && ps[n].ts > LastStored(ps, n) + INTERVAL
  }

  /** Where the interval under way before packet `n` begins, and the one before it. */
  function IntervalStart(ps: seq<Packet>, n: nat): (i: nat)
    requires n <= |ps|
    ensures i <= n
  {
    if n == 0 then 0 else if EndsInterval(ps, n - 1) then n else IntervalStart(ps, n - 1)
  }

  function PreviousStart(ps: seq<Packet>, n: nat): (i: nat)
    requires n <= |ps|
    ensures i <= IntervalStart(ps, n)
  {
    if n == 0 then 0
    else if EndsInterval(ps, n - 1) then IntervalStart(ps, n - 1)
    else PreviousStart(ps, n - 1)
  }

  /** How many of the packets `a` .. `b - 1` were counted, and how many of them came from one source. */
  function CountedIn(ps: seq<Packet>, a: nat, b: nat): nat
    requires a <= b <= |ps|
  {
    if a == b then 0 else CountedIn(ps, a, b - 1) + if ps[b - 1].Counted? then 1 else 0
  }

  function SentIn(ps: seq<Packet>, ip: u32, a: nat, b: nat): nat
    requires a <= b <= |ps|
  {
    if a == b then 0
    else SentIn(ps, ip, a, b - 1) + if ps[b - 1].Counted? && ps[b - 1].ip == ip then 1 else 0
  }

  lemma ToInt32Plus(x: int)
    ensures ToInt32(ToInt32(x) + 1) == ToInt32(x + 1)
  {
  }

  /** The clock and the global counts before packet `n` are what the packets say. */
  ghost predicate ClockFollows(c: Counters, ps: seq<Packet>, n: nat)
    requires n <= |ps|
  {
    && c.timestamp == LastStored(ps, n)
    && c.curPkt == ToInt32(CountedIn(ps, IntervalStart(ps, n), n))
    && c.prevPkt == ToInt32(CountedIn(ps, PreviousStart(ps, n), IntervalStart(ps, n)))
  }

  /** Over every run: the first counted packet later than one interval starts the clock, every later
      one more than an interval after the stored time ends an interval, and no other does; the counts
      are those of the packets of the interval under way and of the one before. */
  lemma {:induction false} ClockRun(start: Ledger, ps: seq<Packet>, n: nat)
    requires IsStart(start) && n <= |ps|
    ensures ClockFollows(After(start, ps, n).c, ps, n)
  {
    if n > 0 {
      ClockRun(start, ps, n - 1);
      ClockStep(After(start, ps, n - 1).c, ps, n - 1, After(start, ps, n).c);
    }
  }

  lemma {:induction false} ClockStep(c: Counters, ps: seq<Packet>, n: nat, d: Counters)
    requires n < |ps| && ClockFollows(c, ps, n) && d == Received(c, ps[n])
    ensures ClockFollows(d, ps, n + 1)
  {
    ReceivedEffect(c, ps[n]);
    ToInt32Plus(CountedIn(ps, IntervalStart(ps, n), n));
  }

  /** The counts of a source before packet `n` are what the packets say. */
  ghost predicate SourceFollows(c: Counters, ps: seq<Packet>, n: nat, ip: u32)
    requires n <= |ps|
  {
    && CurOf(c.logger, ip) == ToInt32(SentIn(ps, ip, IntervalStart(ps, n), n))
    && PrevOf(c.logger, ip) == ToInt32(SentIn(ps, ip, PreviousStart(ps, n), IntervalStart(ps, n)))
  }

  /** Over every run in which the logger has room for every new source, each source's counts are the
      numbers of its packets in the interval under way and in the one before. */
  lemma {:induction false} SourceRun(start: Ledger, ps: seq<Packet>, n: nat, ip: u32)
    requires IsStart(start) && n <= |ps| && forall i :: 0 <= i < n ==> HasRoom(start, ps, i)
    ensures SourceFollows(After(start, ps, n).c, ps, n, ip)
  {
    if n > 0 {
      SourceRun(start, ps, n - 1, ip);
      SourceNext(start, ps, n - 1, ip);
    }
  }

  lemma {:induction false} SourceNext(start: Ledger, ps: seq<Packet>, n: nat, ip: u32)
    requires IsStart(start) && n < |ps| && HasRoom(start, ps, n)
    requires SourceFollows(After(start, ps, n).c, ps, n, ip)
    ensures SourceFollows(After(start, ps, n + 1).c, ps, n + 1, ip)
  {
    ClockRun(start, ps, n);
    SourceStep(After(start, ps, n).c, ps, n, After(start, ps, n + 1).c, ip);
  }

  lemma {:induction false} SourceStep(c: Counters, ps: seq<Packet>, n: nat, d: Counters, ip: u32)
    requires n < |ps| && ClockFollows(c, ps, n) && SourceFollows(c, ps, n, ip)
    requires d == Received(c, ps[n]) && !Lost(c, ps[n])
    ensures SourceFollows(d, ps, n + 1, ip)
  {
    ReceivedSource(c, ps[n], ip);
    ToInt32Plus(SentIn(ps, ip, IntervalStart(ps, n), n));
  }
}
