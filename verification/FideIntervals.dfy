/**
 FIDe's intervals: any number of CPUs handle packets at once, and the one that finds the interval
 over claims the next one under a spin lock. The first claim only starts the clock; every later
 claim starts the rollover of the counters.
 */
module FideIntervals {
  import opened Common

  const INTERVAL: int := 1_000_000_000

  /** Times in nanoseconds for which adding the interval stays a 64-bit signed number. */
  type Time = t: int | 0 <= t < 0x8000_0000_0000_0000 - 1_000_000_000

  datatype Verdict = NotOver | FirstClaim | NextClaim

  /** The decision made under the lock. */
  function Decide(ts: Time, stored: Time): Verdict {
    if stored == 0 then FirstClaim else if ts > stored + INTERVAL then NextClaim else NotOver
  }

  /** Where a CPU is in handling its packet. `Unlocking` remembers the number of the claim that
      will start a rollover. */
  datatype Local =
    | Idle
    | Sampled(ts: Time)
    | Waiting(ts: Time)
    | Locked(ts: Time)
    | Unlocking(claim: Option<nat>)
    | Rolling

  /** `stored` lists every value the timestamp has had, newest last; `rolls` lists the claims that
      have started a rollover. */
  datatype System = System(cpus: seq<Local>, holder: Option<nat>, stored: seq<Time>, rolls: seq<nat>)

  /** `Check` reads the timestamp without the lock and may see any value it ever had. */
  datatype Step =
    | Sample(cpu: nat, ts: Time)
    | Check(cpu: nat, seen: nat)
    | Acquire(cpu: nat)
    | Claim(cpu: nat)
    | Release(cpu: nat)
    | Finish(cpu: nat)

  function Initial(n: nat): System {
    System(seq(n, i => Idle), None, [0], [])
  }

  function Latest(s: System): Time
    requires s.stored != []
  {
    s.stored[|s.stored| - 1]
  }

  /** The critical section of CPU `c`. */
  function Claimed(s: System, c: nat, ts: Time): System
    requires s.stored != [] && c < |s.cpus|
  {
    match Decide(ts, Latest(s))
    case NotOver => s.(cpus := s.cpus[c := Unlocking(None)])
    case FirstClaim => s.(cpus := s.cpus[c := Unlocking(None)], stored := s.stored + [ts])
    case NextClaim => s.(cpus := s.cpus[c := Unlocking(Some(|s.stored|))], stored := s.stored + [ts])
  }

  /** One step of one CPU; a step that is not possible changes nothing. */
  function Next(s: System, step: Step): System
    requires s.stored != []
  {
    if step.cpu >= |s.cpus| then s
    else
      var c, l := step.cpu, s.cpus[step.cpu];
      match step
      case Sample(_, ts) => if l.Idle? then s.(cpus := s.cpus[c := Sampled(ts)]) else s
      case Check(_, seen) =>
        if l.Sampled? && seen < |s.stored| then
          s.(cpus := s.cpus[c := if l.ts > s.stored[seen] + INTERVAL then Waiting(l.ts) else Idle])
        else s
      case Acquire(_) =>
        if l.Waiting? && s.holder.None? then s.(cpus := s.cpus[c := Locked(l.ts)], holder := Some(c)) else s
      case Claim(_) => if l.Locked? then Claimed(s, c, l.ts) else s
      case Release(_) =>
        if !l.Unlocking? then s
        else if l.claim.None? then s.(cpus := s.cpus[c := Idle], holder := None)
        else s.(cpus := s.cpus[c := Rolling], holder := None, rolls := s.rolls + [l.claim.value])
      case Finish(_) => if l.Rolling? then s.(cpus := s.cpus[c := Idle]) else s
  }

  /** The state after the first `k` steps of an interleaving. */
  function Run(n: nat, steps: seq<Step>, k: nat): (s: System)
    requires k <= |steps|
    ensures s.stored != []
  {
    if k == 0 then Initial(n) else Next(Run(n, steps, k - 1), steps[k - 1])
  }

  // ----- the invariant

  /** The timestamp starts at 0 and every claim moves it on by more than one interval. */
  predicate Spaced(stored: seq<Time>) {
    && |stored| > 0 && stored[0] == 0
    && forall k :: 0 < k < |stored| ==> stored[k] > stored[k - 1] + INTERVAL
  }

  /** One CPU's place agrees with the lock. */
  predicate LocalOk(l: Local, c: nat, holder: Option<nat>) {
    && (l.Waiting? || l.Locked? ==> l.ts > INTERVAL)
    && (l.Locked? || l.Unlocking? <==> holder == Some(c))
  }

  predicate LocalsOk(s: System) {
    && (s.holder.Some? ==> s.holder.value < |s.cpus|)
    && forall c :: 0 <= c < |s.cpus| ==> LocalOk(s.cpus[c], c, s.holder)
  }

  /** The claim whose rollover has not started yet: its CPU still holds the lock. */
  function Pending(s: System): Option<nat> {
    if s.holder.Some? && s.holder.value < |s.cpus| && s.cpus[s.holder.value].Unlocking?
    then s.cpus[s.holder.value].claim else None
  }

  /** Claim number `i` is the `i`-th value stored after the initial 0. Rollovers started by the
      claims 2, 3, ... in order, once each, with at most the newest claim still to start its own. */
  predicate RollsOk(s: System) {
    && (forall i :: 0 <= i < |s.rolls| ==> s.rolls[i] == i + 2)
    && match Pending(s)
       case None => |s.rolls| == if |s.stored| <= 2 then 0 else |s.stored| - 2
       case Some(k) => k == |s.stored| - 1 && k >= 2 && |s.rolls| == k - 2
  }

  predicate Inv(s: System) { Spaced(s.stored) && LocalsOk(s) && RollsOk(s) }

  /** Changing one CPU keeps the others in agreement with the lock. */
  lemma SetLocal(s: System, c: nat, l: Local, holder: Option<nat>)
    requires LocalsOk(s) && c < |s.cpus| && LocalOk(l, c, holder)
    requires holder == s.holder || (s.holder == None && holder == Some(c)) || (s.holder == Some(c) && holder == None)
    ensures LocalsOk(s.(cpus := s.cpus[c := l], holder := holder))
  {
  }

  lemma {:induction false} ClaimKeeps(s: System, c: nat)
    requires Inv(s) && c < |s.cpus| && s.cpus[c].Locked?
    ensures Inv(Next(s, Claim(c)))
  {
    var l := s.cpus[c];
    var t := Next(s, Claim(c));
    assert s.holder == Some(c);
    SetLocal(s, c, t.cpus[c], s.holder);
    if |s.stored| > 1 { assert s.stored[|s.stored| - 1] > 0 by { SpacedAtLeast(s.stored, |s.stored| - 1); } }
  }

  /** Stored times grow at least as fast as the interval. */
  lemma {:induction false} SpacedAtLeast(stored: seq<Time>, k: nat)
    requires Spaced(stored) && k < |stored|
    ensures stored[k] >= k * INTERVAL
  {
    if k > 0 { SpacedAtLeast(stored, k - 1); }
  }

  lemma {:induction false} ReleaseKeeps(s: System, c: nat)
    requires Inv(s) && c < |s.cpus| && s.cpus[c].Unlocking?
    ensures Inv(Next(s, Release(c)))
  {
    var t := Next(s, Release(c));
    assert s.holder == Some(c);
    assert Pending(s) == s.cpus[c].claim;
    SetLocal(s, c, t.cpus[c], None);
  }

  /** Every step of every CPU keeps the invariant. */
  lemma {:induction false} StepKeeps(s: System, step: Step)
    requires Inv(s)
    ensures Inv(Next(s, step))
  {
    var t, c := Next(s, step), step.cpu;
    if c < |s.cpus| && t != s {
      match step
      case Claim(_) => ClaimKeeps(s, c);
      case Release(_) => ReleaseKeeps(s, c);
      case Acquire(_) => SetLocal(s, c, t.cpus[c], Some(c));
      case Check(_, seen) => SetLocal(s, c, t.cpus[c], s.holder);
      case Sample(_, _) => SetLocal(s, c, t.cpus[c], s.holder);
      case Finish(_) => SetLocal(s, c, t.cpus[c], s.holder);
    }
  }

  lemma {:induction false} RunKeeps(n: nat, steps: seq<Step>, k: nat)
    requires k <= |steps|
    ensures Inv(Run(n, steps, k))
  {
    if k > 0 {
      RunKeeps(n, steps, k - 1);
      StepKeeps(Run(n, steps, k - 1), steps[k - 1]);
    }
  }

  // ----- what it means

  /** In every interleaving: the stored times strictly increase, consecutive claims are more than
      one interval apart, and at most one CPU is inside the lock. */
  lemma ClaimsAreSpaced(n: nat, steps: seq<Step>, k: nat, i: nat, j: nat)
    requires k <= |steps| && i < j < |Run(n, steps, k).stored|
    ensures var stored := Run(n, steps, k).stored;
            stored[j] > stored[i] + INTERVAL * (j - i) && stored[0] == 0
  {
    RunKeeps(n, steps, k);
    GapsAddUp(Run(n, steps, k).stored, i, j);
  }

  lemma {:induction false} GapsAddUp(stored: seq<Time>, i: nat, j: nat)
    requires Spaced(stored) && i < j < |stored|
    ensures stored[j] > stored[i] + INTERVAL * (j - i)
    decreases j
  {
    if i + 1 < j { GapsAddUp(stored, i, j - 1); }
  }

  lemma OneInsideTheLock(n: nat, steps: seq<Step>, k: nat, c: nat, d: nat)
    requires k <= |steps|
    requires var s := Run(n, steps, k);
             && c < |s.cpus| && (s.cpus[c].Locked? || s.cpus[c].Unlocking?)
             && d < |s.cpus| && (s.cpus[d].Locked? || s.cpus[d].Unlocking?)
    ensures c == d
  {
    RunKeeps(n, steps, k);
    var s := Run(n, steps, k);
    assert LocalOk(s.cpus[c], c, s.holder) && LocalOk(s.cpus[d], d, s.holder);
  }

  /** Whenever the lock is free, the claims that have started a rollover are exactly the second
      and all later ones, once each and in order. */
  lemma {:induction false} EachLaterClaimRollsOnce(n: nat, steps: seq<Step>, k: nat)
    requires k <= |steps| && Run(n, steps, k).holder == None
    ensures var s := Run(n, steps, k);
            s.rolls == seq(if |s.stored| <= 2 then 0 else |s.stored| - 2, i => i + 2)
  {
    RunKeeps(n, steps, k);
  }

  /** Under the lock a claim is made if and only if the interval is over, the first one included. */
  lemma {:induction false} ClaimedIffOver(n: nat, steps: seq<Step>, k: nat, c: nat)
    requires k < |steps| && steps[k] == Claim(c) && c < |Run(n, steps, k).cpus| && Run(n, steps, k).cpus[c].Locked?
    ensures var s, t := Run(n, steps, k), Run(n, steps, k + 1);
            var ts := s.cpus[c].ts;
            && t.stored == s.stored + (if ts > Latest(s) + INTERVAL then [ts] else [])
            && t.cpus[c] == Unlocking(if ts > Latest(s) + INTERVAL && Latest(s) != 0 then Some(|s.stored|) else None)
            && t.rolls == s.rolls
  {
    RunKeeps(n, steps, k);
    var s := Run(n, steps, k);
    assert LocalOk(s.cpus[c], c, s.holder);
  }

  /** The state after some steps. */
  function Steps(s: System, steps: seq<Step>, k: nat): (t: System)
    requires s.stored != [] && k <= |steps|
    ensures t.stored != []
  {
    if k == 0 then s else Next(Steps(s, steps, k - 1), steps[k - 1])
  }

  /** All that one CPU does for a packet, with some value read before it takes the lock. */
  function Handling(c: nat, ts: Time, seen: nat): seq<Step> {
    [Sample(c, ts), Check(c, seen), Acquire(c), Claim(c), Release(c), Finish(c)]
  }

  /** A CPU that handles a packet while the others stand still stores its time if and only if the
      interval is over, and starts a rollover unless it is the first to store one, whatever old value
      it read without the lock. */
  lemma {:induction false} HandledAlone(s: System, c: nat, ts: Time, seen: nat)
    requires Inv(s) && s.holder.None? && c < |s.cpus| && s.cpus[c].Idle? && seen < |s.stored|
    ensures var over := ts > Latest(s) + INTERVAL;
            Steps(s, Handling(c, ts, seen), 6)
            == System(s.cpus, None, s.stored + (if over then [ts] else []),
                      s.rolls + (if over && Latest(s) != 0 then [|s.stored|] else []))
  {
    StoredBelowLatest(s.stored, seen);
    var h := Handling(c, ts, seen);
    var checked := Steps(s, h, 2);
    assert Steps(s, h, 1) == s.(cpus := s.cpus[c := Sampled(ts)]);
    if ts > s.stored[seen] + INTERVAL {
      HandledWaiting(s, h, c, ts);
    } else {
      assert checked.cpus == s.cpus;
      assert Steps(s, h, 3) == s && Steps(s, h, 4) == s && Steps(s, h, 5) == s && Steps(s, h, 6) == s;
    }
  }

  lemma StoredBelowLatest(stored: seq<Time>, seen: nat)
    requires Spaced(stored) && seen < |stored|
    ensures 0 <= stored[seen] <= stored[|stored| - 1]
  {
    if seen < |stored| - 1 { GapsAddUp(stored, seen, |stored| - 1); }
  }

  /** The part from the lock on. */
  lemma {:induction false} HandledWaiting(s: System, h: seq<Step>, c: nat, ts: Time)
    requires Inv(s) && s.holder.None? && c < |s.cpus| && s.cpus[c].Idle? && ts > INTERVAL
    requires |h| == 6 && h[2..] == [Acquire(c), Claim(c), Release(c), Finish(c)]
    requires Steps(s, h, 2) == s.(cpus := s.cpus[c := Waiting(ts)])
    ensures var over := ts > Latest(s) + INTERVAL;
            Steps(s, h, 6)
            == System(s.cpus, None, s.stored + (if over then [ts] else []),
                      s.rolls + (if over && Latest(s) != 0 then [|s.stored|] else []))
  {
    var over := ts > Latest(s) + INTERVAL;
    var stored := s.stored + if over then [ts] else [];
    var claim := if over && Latest(s) != 0 then Some(|s.stored|) else None;
    assert h[2] == h[2..][0] && h[3] == h[2..][1] && h[4] == h[2..][2] && h[5] == h[2..][3];
    assert Steps(s, h, 3) == s.(cpus := s.cpus[c := Locked(ts)], holder := Some(c));
    assert Steps(s, h, 4) == s.(cpus := s.cpus[c := Unlocking(claim)], holder := Some(c), stored := stored);
    assert claim.None? ==> Steps(s, h, 5) == s.(stored := stored);
  }
}
