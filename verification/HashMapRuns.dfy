/**
 Whole runs of the hash map: any sequence of operations answers like a finite map, any sequence of
 appends makes a multimap, and which of a key's appended values a lookup finds.
 */
module HashMapRuns {
  import opened Common
  import opened Powers
  import opened HashMap

  // ----- whole runs of map operations

  datatype Op<K, V> = Store(strategy: Strategy, key: K, value: V) | Remove(key: K) | Lookup(key: K)
  datatype Event<K, V> = Stored(strategy: Strategy, key: K, value: V, err: int)
                       | Removed(key: K, found: bool)
                       | Looked(key: K, result: Option<V>)

  /** The reference answer: the value last stored under `k` and not removed since. */
  ghost function LastStored<K, V>(h: seq<Event<K, V>>, f: (K, K) -> bool, k: K): Option<V> {
    if h == [] then None
    else
      var before := h[..|h| - 1];
      match h[|h| - 1]
      case Stored(_, key, v, err) => if err == OK && f(key, k) then Some(v) else LastStored(before, f, k)
      case Removed(key, found) => if found && f(key, k) then None else LastStored(before, f, k)
      case Looked(_, _) => LastStored(before, f, k)
  }

  /** The answer `e` is the one a finite map with history `before` gives; storing a new key may
      also fail for want of memory. */
  ghost predicate Answers<K, V>(before: seq<Event<K, V>>, f: (K, K) -> bool, e: Event<K, V>) {
    var present := LastStored(before, f, e.key).Some?;
    match e
    case Stored(strategy, _, _, err) =>
      (match strategy
       case Add => if present then err == EEXIST else err == OK || err == ENOMEM
       case Set => if present then err == OK else err == OK || err == ENOMEM
       case Update => if present then err == OK else err == ENOENT
       case Append => false)
    case Removed(_, found) => found <==> present
    case Looked(key, result) => result == LastStored(before, f, key)
  }

  ghost predicate Represents<K(!new), V>(s: seq<Entry<K, V>>, f: (K, K) -> bool, h: seq<Event<K, V>>) {
    forall k :: ValuesIn(s, f, k) == (match LastStored(h, f, k) case None => multiset{} case Some(v) => multiset{v})
  }

  lemma RepresentsUnique<K(!new), V>(s: seq<Entry<K, V>>, f: (K, K) -> bool, h: seq<Event<K, V>>)
    requires Represents(s, f, h)
    ensures UniqueKeys(s, f)
  {
    forall k ensures |ValuesIn(s, f, k)| <= 1 {
      assert ValuesIn(s, f, k) == (match LastStored(h, f, k) case None => multiset{} case Some(v) => multiset{v});
    }
  }

  lemma {:induction false} StoreRepresents<K(!new), V>(s: seq<Entry<K, V>>, t: seq<Entry<K, V>>, f: (K, K) -> bool,
                                                       h: seq<Event<K, V>>, e: Entry<K, V>, strategy: Strategy,
                                                       err: int, prior: Option<Entry<K, V>>)
    requires Equivalence(f) && Represents(s, f, h) && strategy != Append
    requires Inserted(s, t, f, e, strategy, err, prior)
    ensures Answers(h, f, Stored(strategy, e.key, e.value, err))
    ensures Represents(t, f, h + [Stored(strategy, e.key, e.value, err)])
  {
    RepresentsUnique(s, f, h);
    var h' := h + [Stored(strategy, e.key, e.value, err)];
    assert h'[..|h|] == h;
    assert ValuesIn(s, f, e.key) == (match LastStored(h, f, e.key) case None => multiset{} case Some(v) => multiset{v});
    forall k ensures ValuesIn(t, f, k) ==
      (match LastStored(h', f, k) case None => multiset{} case Some(v) => multiset{v}) {
      InsertedValues(s, t, f, e, strategy, err, prior, k);
    }
  }

  lemma {:induction false} RemoveRepresents<K(!new), V>(s: seq<Entry<K, V>>, t: seq<Entry<K, V>>, f: (K, K) -> bool,
                                                        h: seq<Event<K, V>>, key: K, e: Entry<K, V>)
    requires Equivalence(f) && Represents(s, f, h) && f(e.key, key) && e.value in ValuesIn(s, f, key)
    requires multiset(t) + multiset{e} == multiset(s)
    ensures Answers(h, f, Removed(key, true))
    ensures Represents(t, f, h + [Removed(key, true)])
  {
    RepresentsUnique(s, f, h);
    RemovedValues(s, t, f, e);
    var h' := h + [Removed(key, true)];
    assert h'[..|h|] == h;
    assert ValuesIn(s, f, key) == (match LastStored(h, f, key) case None => multiset{} case Some(v) => multiset{v});
    forall k ensures ValuesIn(t, f, k) ==
      (match LastStored(h', f, k) case None => multiset{} case Some(v) => multiset{v}) {
      assert f(key, e.key);
      assert f(e.key, k) <==> f(key, k);
      if f(key, k) {
        EqualKeysShare(s, f, key, k);
        OnlyValue(s, f, k, e.value);
        Cancel(ValuesIn(t, f, k), multiset{}, multiset{e.value});
      } else {
        assert ValuesIn(s, f, k) == ValuesIn(t, f, k) + multiset{};
      }
    }
  }

  lemma UnchangedRepresents<K(!new), V>(s: seq<Entry<K, V>>, f: (K, K) -> bool, h: seq<Event<K, V>>, e: Event<K, V>)
    requires Represents(s, f, h) && (e.Looked? || (e.Removed? && !e.found))
    ensures Represents(s, f, h + [e])
  {
    var h' := h + [e];
    assert h'[..|h|] == h;
    forall k ensures LastStored(h', f, k) == LastStored(h, f, k) {}
  }

  /** No two of the keys are equal. */
  ghost predicate Inequivalent<K(!new)>(keys: seq<K>, f: (K, K) -> bool) {
    forall i, j :: 0 <= i < j < |keys| ==> !f(keys[i], keys[j])
  }

  /** Some key of the list is equal to `k`. */
  ghost predicate Among<K(!new)>(keys: seq<K>, f: (K, K) -> bool, k: K) {
    exists i :: 0 <= i < |keys| && f(keys[i], k)
  }

  /** `keys` lists the keys present after the history, one of each class of equal keys. */
  ghost predicate PresentKeys<K(!new), V>(keys: seq<K>, f: (K, K) -> bool, h: seq<Event<K, V>>) {
    Inequivalent(keys, f) && forall k :: LastStored(h, f, k).Some? <==> Among(keys, f, k)
  }

  /** After the history `n` keys are present. */
  ghost predicate KeyCount<K(!new), V>(f: (K, K) -> bool, h: seq<Event<K, V>>, n: nat) {
    exists keys: seq<K> :: |keys| == n && PresentKeys(keys, f, h)
  }

  lemma EqualThrough<K(!new)>(f: (K, K) -> bool, x: K, y: K, z: K)
    requires Equivalence(f)
    ensures f(z, x) && f(z, y) ==> f(x, y)
  {
    assert f(z, x) ==> f(x, z);
  }

  lemma {:induction false} NoMoreKeys<K(!new)>(a: seq<K>, b: seq<K>, f: (K, K) -> bool)
    requires Equivalence(f) && Inequivalent(a, f)
    requires forall i :: 0 <= i < |a| ==> Among(b, f, a[i])
    ensures |a| <= |b|
    decreases |a|
  {
    if a != [] {
      var n := |a| - 1;
      assert Among(b, f, a[n]);
      var j :| 0 <= j < |b| && f(b[j], a[n]);
      var b' := b[..j] + b[j + 1..];
      forall i | 0 <= i < n ensures Among(b', f, a[..n][i]) {
        assert Among(b, f, a[i]);
        var l :| 0 <= l < |b| && f(b[l], a[i]);
        OthersMatch(f, a, b, i, n, l, j);
        assert b'[if l < j then l else l - 1] == b[l];
      }
      NoMoreKeys(a[..n], b', f);
    }
  }

  lemma OthersMatch<K(!new)>(f: (K, K) -> bool, a: seq<K>, b: seq<K>, i: nat, n: nat, l: nat, j: nat)
    requires Equivalence(f) && Inequivalent(a, f) && i < n < |a| && l < |b| && j < |b| && f(b[l], a[i]) && f(b[j], a[n])
    ensures l != j
  {
    EqualThrough(f, a[i], a[n], b[j]);
  }

  lemma PresentMatched<K(!new), V>(f: (K, K) -> bool, h: seq<Event<K, V>>, a: seq<K>, b: seq<K>)
    requires Equivalence(f) && PresentKeys(a, f, h) && PresentKeys(b, f, h)
    ensures |a| <= |b|
  {
    forall i | 0 <= i < |a| ensures Among(b, f, a[i]) {
      assert f(a[i], a[i]);
      assert Among(a, f, a[i]);
      assert LastStored(h, f, a[i]).Some?;
    }
    NoMoreKeys(a, b, f);
  }

  /** The number of keys present is determined by the history. */
  lemma KeyCountUnique<K(!new), V>(f: (K, K) -> bool, h: seq<Event<K, V>>, m: nat, n: nat)
    requires Equivalence(f) && KeyCount(f, h, m) && KeyCount(f, h, n)
    ensures m == n
  {
    var a: seq<K> :| |a| == m && PresentKeys(a, f, h);
    var b: seq<K> :| |b| == n && PresentKeys(b, f, h);
    PresentMatched(f, h, a, b);
    PresentMatched(f, h, b, a);
  }

  /** Two entries with keys equal to `k` give it two values. */
  lemma TwoValues<K(!new), V>(s: seq<Entry<K, V>>, f: (K, K) -> bool, i: nat, j: nat, k: K)
    requires i < j < |s| && f(s[i].key, k) && f(s[j].key, k)
    ensures |ValuesIn(s, f, k)| >= 2
  {
    var t := s[..j] + s[j + 1..];
    ValuesInDrop(s, j, f, k);
    ValuesInDrop(t, i, f, k);
    assert t[i] == s[i];
    assert |ValuesIn(s, f, k)| == |ValuesIn(t, f, k)| + 1;
    assert |ValuesIn(t, f, k)| == |ValuesIn(t[..i] + t[i + 1..], f, k)| + 1;
  }

  /** Without repeated keys, two entries never have equal keys. */
  lemma UniqueEntries<K(!new), V>(s: seq<Entry<K, V>>, f: (K, K) -> bool, i: nat, j: nat)
    requires Equivalence(f) && UniqueKeys(s, f) && i < j < |s|
    ensures !f(s[i].key, s[j].key)
  {
    var k := s[j].key;
    assert f(k, k) && |ValuesIn(s, f, k)| <= 1;
    if f(s[i].key, k) { TwoValues(s, f, i, j, k); }
  }

  /** A key has values exactly when some entry has an equal key. */
  lemma ValuesMeanEntry<K(!new), V>(s: seq<Entry<K, V>>, f: (K, K) -> bool, k: K)
    ensures ValuesIn(s, f, k) != multiset{} <==> exists i :: 0 <= i < |s| && f(s[i].key, k)
  {
    if i :| 0 <= i < |s| && f(s[i].key, k) {
      ValuesInDrop(s, i, f, k);
    } else {
      ValuesUpToNone(s, |s|, f, k);
    }
  }

  /** The entries of a map that represents a history are one per key present. */
  lemma {:induction false} EntriesCountKeys<K(!new), V>(s: seq<Entry<K, V>>, f: (K, K) -> bool, h: seq<Event<K, V>>)
    requires Equivalence(f) && Represents(s, f, h)
    ensures KeyCount(f, h, |s|)
  {
    RepresentsUnique(s, f, h);
    var keys := seq(|s|, i requires 0 <= i < |s| => s[i].key);
    forall i, j | 0 <= i < j < |keys| ensures !f(keys[i], keys[j]) { UniqueEntries(s, f, i, j); }
    forall k ensures LastStored(h, f, k).Some? <==> Among(keys, f, k) {
      ValuesMeanEntry(s, f, k);
      assert ValuesIn(s, f, k) == (match LastStored(h, f, k) case None => multiset{} case Some(v) => multiset{v});
      if i :| 0 <= i < |s| && f(s[i].key, k) { assert keys[i] == s[i].key; }
      if i :| 0 <= i < |keys| && f(keys[i], k) { assert keys[i] == s[i].key; }
    }
    assert PresentKeys(keys, f, h);
  }

  ghost predicate OutOfMemory<K, V>(e: Event<K, V>) {
    e.Stored? && e.err == ENOMEM
  }

  /** Any sequence of map operations on a fresh hash map answers like a finite map, and the size is
      the number of keys present. With `memory` every allocation is granted, and then none fails. */
  method RunOperations<K(!new), V(!new)>(m: Hashmap<K, V>, memory: bool, ops: seq<Op<K, V>>)
      returns (h: seq<Event<K, V>>)
    requires m.Valid() && m.sz == 0
    requires forall i :: 0 <= i < |ops| && ops[i].Store? ==> ops[i].strategy != Append
    modifies m
    ensures m.Valid() && m.Unique() && |h| == |ops|
    ensures forall i :: 0 <= i < |h| ==> Answers(h[..i], m.equalFn, h[i])
    ensures Represents(Flat(m.buckets), m.equalFn, h)
    ensures KeyCount(m.equalFn, h, m.sz)
    ensures memory && old(m.cap) == 0 && |ops| < MAX_ENTRIES ==> forall i :: 0 <= i < |h| ==> !OutOfMemory(h[i])
  {
    h := [];
    assert Flat(m.buckets) == [];
    assert Represents(Flat(m.buckets), m.equalFn, h);
    for i := 0 to |ops|
      invariant m.Valid() && |h| == i
      invariant forall j :: 0 <= j < |h| ==> Answers(h[..j], m.equalFn, h[j])
      invariant Represents(Flat(m.buckets), m.equalFn, h)
      invariant old(m.cap) == 0 ==> BoundedBy(m.cap, m.sz, i)
      invariant memory && old(m.cap) == 0 && |ops| < MAX_ENTRIES ==> forall j :: 0 <= j < |h| ==> !OutOfMemory(h[j])
    {
      ghost var h0 := h;
      var e := RunOne(m, memory, ops[i], h, i);
      h := h + [e];
      assert forall j :: 0 <= j < |h0| ==> h[..j] == h0[..j];
      assert h[..|h0|] == h0;
    }
    RepresentsUnique(Flat(m.buckets), m.equalFn, h);
    EntriesCountKeys(Flat(m.buckets), m.equalFn, h);
  }

  method InsertBounded<K(!new), V(!new)>(m: Hashmap<K, V>, memory: bool, strategy: Strategy, key: K, value: V,
                                         ghost n: nat)
      returns (err: int, prior: Option<Entry<K, V>>)
    requires m.Valid() && strategy != Append
    modifies m
    ensures m.Valid()
    ensures Inserted(Flat(old(m.buckets)), Flat(m.buckets), m.equalFn, Entry(key, value), strategy, err, prior)
    ensures old(BoundedBy(m.cap, m.sz, n)) ==>
              BoundedBy(m.cap, m.sz, n + 1) && (memory && n < MAX_ENTRIES ==> err != ENOMEM)
  {
    ghost var cap0, bits0, sz0 := m.cap, m.capBits, m.sz;
    if BoundedBy(cap0, sz0, n) && n < MAX_ENTRIES { BelowMaximum(cap0, bits0, sz0, n); }
    err, prior := m.InsertAny(key, value, strategy, memory);
    if BoundedBy(cap0, sz0, n) { StaysBounded(cap0, bits0, sz0, m.cap, m.capBits, m.sz, n, n + 1); }
  }

  method StoreOne<K(!new), V(!new)>(m: Hashmap<K, V>, memory: bool, strategy: Strategy, key: K, value: V,
                                    ghost h: seq<Event<K, V>>, ghost n: nat)
      returns (e: Event<K, V>)
    requires m.Valid() && Represents(Flat(m.buckets), m.equalFn, h) && strategy != Append
    modifies m
    ensures m.Valid() && e.Stored? && e.strategy == strategy && e.key == key
    ensures Answers(h, m.equalFn, e)
    ensures Represents(Flat(m.buckets), m.equalFn, h + [e])
    ensures old(BoundedBy(m.cap, m.sz, n)) ==>
              BoundedBy(m.cap, m.sz, n + 1) && (memory && n < MAX_ENTRIES ==> !OutOfMemory(e))
  {
    ghost var s := Flat(m.buckets);
    var err, prior := InsertBounded(m, memory, strategy, key, value, n);
    StoreRepresents(s, Flat(m.buckets), m.equalFn, h, Entry(key, value), strategy, err, prior);
    e := Stored(strategy, key, value, err);
  }

  method RunOne<K(!new), V(!new)>(m: Hashmap<K, V>, memory: bool, op: Op<K, V>, ghost h: seq<Event<K, V>>, ghost n: nat)
      returns (e: Event<K, V>)
    requires m.Valid() && Represents(Flat(m.buckets), m.equalFn, h)
    requires op.Store? ==> op.strategy != Append
    modifies m
    ensures m.Valid()
    ensures Answers(h, m.equalFn, e)
    ensures Represents(Flat(m.buckets), m.equalFn, h + [e])
    ensures old(BoundedBy(m.cap, m.sz, n)) ==>
              BoundedBy(m.cap, m.sz, n + 1) && (memory && n < MAX_ENTRIES ==> !OutOfMemory(e))
  {
    ghost var s := Flat(m.buckets);
    match op
    case Store(strategy, key, value) =>
      e := StoreOne(m, memory, strategy, key, value, h, n);
    case Remove(key) =>
      var prior := m.Delete(key);
      e := Removed(key, prior.Some?);
      if prior.Some? {
        RemoveRepresents(s, Flat(m.buckets), m.equalFn, h, key, prior.value);
      } else {
        UnchangedRepresents(s, m.equalFn, h, e);
      }
    case Lookup(key) =>
      var r := m.Find(key);
      e := Looked(key, r);
      UnchangedRepresents(s, m.equalFn, h, e);
  }

  /** The entries whose insertion succeeded. */
  ghost function Successes<K, V>(es: seq<Entry<K, V>>, errs: seq<int>): (s: seq<Entry<K, V>>)
    requires |es| == |errs|
  {
    if es == [] then []
    else Successes(es[..|es| - 1], errs[..|es| - 1]) + if errs[|es| - 1] == OK then [es[|es| - 1]] else []
  }

  /** The map holds exactly the successful appends. */
  ghost predicate HoldsAppends<K(!new), V>(s: seq<Entry<K, V>>, f: (K, K) -> bool, es: seq<Entry<K, V>>, errs: seq<int>)
    requires |es| == |errs|
  {
    && |s| == |Successes(es, errs)|
    && (forall k :: ValuesIn(s, f, k) == ValuesIn(Successes(es, errs), f, k))
    && (forall i :: 0 <= i < |errs| ==> errs[i] == OK || errs[i] == ENOMEM)
  }

  method AppendOne<K(!new), V(!new)>(m: Hashmap<K, V>, memory: bool, e: Entry<K, V>, ghost es: seq<Entry<K, V>>,
                                     ghost errs: seq<int>)
      returns (err: int)
    requires m.Valid() && |es| == |errs| && HoldsAppends(Flat(m.buckets), m.equalFn, es, errs)
    modifies m
    ensures m.Valid()
    ensures HoldsAppends(Flat(m.buckets), m.equalFn, es + [e], errs + [err])
    ensures old(BoundedBy(m.cap, m.sz, |es|)) ==>
              BoundedBy(m.cap, m.sz, |es| + 1) && (memory && |es| < MAX_ENTRIES ==> err == OK)
  {
    ghost var s, cap0, bits0, sz0, n := Flat(m.buckets), m.cap, m.capBits, m.sz, |es|;
    if BoundedBy(cap0, sz0, n) && n < MAX_ENTRIES { BelowMaximum(cap0, bits0, sz0, n); }
    err := m.AppendEntry(e.key, e.value, memory);
    if BoundedBy(cap0, sz0, n) { StaysBounded(cap0, bits0, sz0, m.cap, m.capBits, m.sz, n, n + 1); }
    AppendedHolds(s, Flat(m.buckets), m.equalFn, es, errs, e, err);
  }

  lemma AppendedHolds<K(!new), V>(s: seq<Entry<K, V>>, t: seq<Entry<K, V>>, f: (K, K) -> bool,
                                  es: seq<Entry<K, V>>, errs: seq<int>, e: Entry<K, V>, err: int)
    requires |es| == |errs| && HoldsAppends(s, f, es, errs) && (err == OK || err == ENOMEM)
    requires multiset(t) == multiset(s) + (if err == OK then multiset{e} else multiset{})
    ensures HoldsAppends(t, f, es + [e], errs + [err])
  {
    assert (es + [e])[..|es|] == es && (errs + [err])[..|es|] == errs;
    var was, now := Successes(es, errs), Successes(es + [e], errs + [err]);
    assert now == if err == OK then was + [e] else was;
    assert |multiset(t)| == |t| && |multiset(s)| == |s|;
    forall k ensures ValuesIn(t, f, k) == ValuesIn(now, f, k) {
      if err == OK {
        AddedValues(s, t, f, e, k);
        ValuesInPush(was, e, f, k);
      } else {
        ValuesInPermuted(s, t, f, k);
      }
    }
  }

  method AppendAll<K(!new), V(!new)>(m: Hashmap<K, V>, memory: bool, es: seq<Entry<K, V>>) returns (errs: seq<int>)
    requires m.Valid() && m.sz == 0
    modifies m
    ensures m.Valid() && |errs| == |es| && HoldsAppends(Flat(m.buckets), m.equalFn, es, errs)
    ensures memory && old(m.cap) == 0 && |es| < MAX_ENTRIES ==> forall i :: 0 <= i < |errs| ==> errs[i] == OK
  {
    errs := [];
    ghost var done := [];
    for i := 0 to |es|
      invariant m.Valid() && |errs| == |done| == i && done == es[..i]
      invariant HoldsAppends(Flat(m.buckets), m.equalFn, done, errs)
      invariant old(m.cap) == 0 ==> BoundedBy(m.cap, m.sz, i)
      invariant memory && old(m.cap) == 0 && |es| < MAX_ENTRIES ==> forall j :: 0 <= j < |errs| ==> errs[j] == OK
    {
      var err := AppendOne(m, memory, es[i], done, errs);
      done, errs := done + [es[i]], errs + [err];
    }
    assert done == es;
  }

  /** Any sequence of appends, through every rehash: iterating a key yields exactly the values
      appended under it. */
  method RunAppends<K(!new), V(!new)>(m: Hashmap<K, V>, memory: bool, es: seq<Entry<K, V>>, key: K)
      returns (errs: seq<int>, vals: seq<V>)
    requires m.Valid() && m.sz == 0
    modifies m
    ensures m.Valid() && |errs| == |es| && HoldsAppends(Flat(m.buckets), m.equalFn, es, errs)
    ensures multiset(vals) == ValuesIn(Successes(es, errs), m.equalFn, key)
    ensures memory && old(m.cap) == 0 && |es| < MAX_ENTRIES ==> forall i :: 0 <= i < |errs| ==> errs[i] == OK
  {
    errs := AppendAll(m, memory, es);
    vals := m.KeyEntries(key);
  }

  // ----- which appended value a lookup finds

  /** One append: the entry, whether it succeeded, and the number of bucket bits afterwards. */
  datatype Logged<K, V> = Logged(entry: Entry<K, V>, ok: bool, bits: nat)

  ghost predicate Appended<K, V>(l: Logged<K, V>, f: (K, K) -> bool, k: K) {
    l.ok && f(l.entry.key, k)
  }

  /** The values of `k` on a line that does not turn: growth turns the chain around, so appends made
      with an odd number of bits go to the other end. */
  ghost function Line<K, V>(log: seq<Logged<K, V>>, n: nat, f: (K, K) -> bool, k: K): seq<V>
    requires n <= |log|
  {
    if n == 0 then []
    else if !Appended(log[n - 1], f, k) then Line(log, n - 1, f, k)
    else if log[n - 1].bits % 2 == 0 then [log[n - 1].entry.value] + Line(log, n - 1, f, k)
    else Line(log, n - 1, f, k) + [log[n - 1].entry.value]
  }

  /** The line as the chain shows it. */
  ghost function Turned<T>(s: seq<T>, around: bool): seq<T> {
    if around then Reversed(s) else s
  }

  /** The last of the first `n` appends of `k` made with bucket bits of the given parity. */
  ghost function LastWith<K, V>(log: seq<Logged<K, V>>, n: nat, f: (K, K) -> bool, k: K, parity: nat): (r: Option<nat>)
    requires n <= |log|
    ensures r.Some? ==> r.value < n && Appended(log[r.value], f, k) && log[r.value].bits % 2 == parity
    ensures forall i :: 0 <= i < n && Appended(log[i], f, k) && log[i].bits % 2 == parity ==> r.Some? && i <= r.value
  {
    if n == 0 then None
    else if Appended(log[n - 1], f, k) && log[n - 1].bits % 2 == parity then Some(n - 1)
    else LastWith(log, n - 1, f, k, parity)
  }

  /** The first append of `k` among the first `n`. */
  ghost function FirstAppend<K, V>(log: seq<Logged<K, V>>, n: nat, f: (K, K) -> bool, k: K): (r: Option<nat>)
    requires n <= |log|
    ensures r.Some? ==> r.value < n && Appended(log[r.value], f, k)
    ensures forall i :: 0 <= i < n && Appended(log[i], f, k) ==> r.Some? && r.value <= i
  {
    if n == 0 then None
    else if FirstAppend(log, n - 1, f, k).Some? then FirstAppend(log, n - 1, f, k)
    else if Appended(log[n - 1], f, k) then Some(n - 1) else None
  }

  /** The append a lookup finds while there are `bits` bucket bits: the last one made with the same
      parity of bits, or the very first if there is none. */
  ghost function FrontAppend<K, V>(log: seq<Logged<K, V>>, f: (K, K) -> bool, k: K, bits: nat): (r: Option<nat>)
    ensures r.Some? ==> r.value < |log| && Appended(log[r.value], f, k)
  {
    var same := LastWith(log, |log|, f, k, bits % 2);
    if same.Some? then same else FirstAppend(log, |log|, f, k)
  }

  /** The ends of the line. */
  lemma {:induction false} LineEnds<K, V>(log: seq<Logged<K, V>>, n: nat, f: (K, K) -> bool, k: K)
    requires n <= |log|
    ensures Line(log, n, f, k) == [] <==> FirstAppend(log, n, f, k).None?
    ensures var s, even, odd, first := Line(log, n, f, k), LastWith(log, n, f, k, 0), LastWith(log, n, f, k, 1),
                                       FirstAppend(log, n, f, k);
            s != [] ==>
              && s[0] == log[if even.Some? then even.value else first.value].entry.value
              && s[|s| - 1] == log[if odd.Some? then odd.value else first.value].entry.value
    decreases n
  {
    if n > 0 { LineEnds(log, n - 1, f, k); }
  }

  /** Every key's chain shows its line. */
  ghost predicate ShowsLine<K(!new), V(!new)>(m: Hashmap<K, V>, log: seq<Logged<K, V>>)
    reads m
  {
    m.capBits <= 64 && forall k :: m.Order(k) == Turned(Line(log, |log|, m.equalFn, k), m.capBits % 2 == 1)
  }

  /** Growing, or not, and then pushing in front is pushing at one end of the line. */
  lemma TurnedStep<T>(s: seq<T>, own: seq<T>, was: bool, now: bool, grew: bool)
    requires |own| <= 1 && (s == [] || (grew <==> now != was))
    ensures own + (if grew then Reversed(Turned(s, was)) else Turned(s, was))
            == Turned(if now then s + own else own + s, now)
  {
    ReversedPush(s, own);
    ReversedTwice(s);
    assert s == [] ==> Reversed(s) == s && Reversed(own) == own;
  }

  lemma TurnedStay<T>(s: seq<T>, was: bool, now: bool, grew: bool)
    requires s == [] || (grew <==> now != was)
    ensures (if grew then Reversed(Turned(s, was)) else Turned(s, was)) == Turned(s, now)
  {
    ReversedTwice(s);
    assert s == [] ==> Reversed(s) == s;
  }

  lemma ReversedTwice<T>(s: seq<T>)
    ensures Reversed(Reversed(s)) == s
  {
  }

  lemma {:induction false} LinePrefix<K, V>(log: seq<Logged<K, V>>, l: Logged<K, V>, n: nat, f: (K, K) -> bool, k: K)
    requires n <= |log|
    ensures Line(log + [l], n, f, k) == Line(log, n, f, k)
    decreases n
  {
    if n > 0 { LinePrefix(log, l, n - 1, f, k); }
  }

  lemma LineStep<K, V>(log: seq<Logged<K, V>>, l: Logged<K, V>, f: (K, K) -> bool, k: K)
    ensures var s, s' := Line(log, |log|, f, k), Line(log + [l], |log| + 1, f, k);
            if !l.ok then s' == s
            else s' == if l.bits % 2 == 1 then s + Own(l.entry, f, k) else Own(l.entry, f, k) + s
  {
    LinePrefix(log, l, |log|, f, k);
  }

  lemma {:induction false} AppendKeepsLine<K, V>(log: seq<Logged<K, V>>, l: Logged<K, V>, f: (K, K) -> bool, k: K,
                                                 o: seq<V>, was: nat)
    requires o == Turned(Line(log, |log|, f, k), was % 2 == 1) && (o == [] || l.bits == was || l.bits == was + 1)
    ensures AfterAppend(o, l.bits != was, l.ok, l.entry, f, k)
            == Turned(Line(log + [l], |log| + 1, f, k), l.bits % 2 == 1)
  {
    var s := Line(log, |log|, f, k);
    LineStep(log, l, f, k);
    assert |s| == |o|;
    if l.ok {
      TurnedStep(s, Own(l.entry, f, k), was % 2 == 1, l.bits % 2 == 1, l.bits != was);
    } else {
      TurnedStay(s, was % 2 == 1, l.bits % 2 == 1, l.bits != was);
    }
  }

  /** Every append succeeded, and the bits afterwards are those of a map that grew only when it had to. */
  ghost predicate LogFits<K, V>(log: seq<Logged<K, V>>) {
    forall i :: 0 <= i < |log| ==> FitsAt(log[i], i + 1)
  }

  predicate FitsAt<K, V>(l: Logged<K, V>, n: nat) {
    l.ok && FitsBits(n, l.bits)
  }

  ghost predicate Grown<K(!new), V(!new)>(m: Hashmap<K, V>)
    reads m
  {
    GrownTo(m.cap, m.capBits, m.sz)
  }

  method AppendGrown<K(!new), V(!new)>(m: Hashmap<K, V>, memory: bool, e: Entry<K, V>) returns (err: int)
    requires m.Valid()
    modifies m
    ensures m.Valid()
    ensures old(m.capBits) == m.capBits || m.capBits == if old(m.cap) == 0 then 2 else old(m.capBits) + 1
    ensures memory && old(Grown(m)) && old(m.sz) < MAX_ENTRIES ==> err == OK && m.sz == old(m.sz) + 1 && Grown(m)
    ensures forall k :: m.Order(k) ==
              AfterAppend(old(m.Order(k)), m.capBits != old(m.capBits), err == OK, e, m.equalFn, k)
  {
    ghost var cap0, bits0, sz0 := m.cap, m.capBits, m.sz;
    if GrownTo(cap0, bits0, sz0) && sz0 < MAX_ENTRIES {
      GrownBounded(cap0, bits0, sz0);
      BelowMaximum(cap0, bits0, sz0, sz0);
    }
    err := m.AppendEntry(e.key, e.value, memory);
    if GrownTo(cap0, bits0, sz0) && err == OK { GrowthFits(cap0, bits0, sz0, m.cap, m.capBits); }
  }

  method AppendAndLog<K(!new), V(!new)>(m: Hashmap<K, V>, memory: bool, e: Entry<K, V>, ghost log: seq<Logged<K, V>>)
      returns (l: Logged<K, V>)
    requires m.Valid() && ShowsLine(m, log)
    modifies m
    ensures m.Valid() && l.entry == e && l.bits == m.capBits && ShowsLine(m, log + [l])
    ensures memory && old(Grown(m)) && old(m.sz) < MAX_ENTRIES ==>
              m.sz == old(m.sz) + 1 && Grown(m) && FitsAt(l, m.sz)
  {
    ghost var was := m.capBits;
    var err := AppendGrown(m, memory, e);
    l := Logged(e, err == OK, m.capBits);
    forall k ensures m.Order(k) == Turned(Line(log + [l], |log| + 1, m.equalFn, k), m.capBits % 2 == 1) {
      AppendKeepsLine(log, l, m.equalFn, k, old(m.Order(k)), was);
    }
  }

  method AppendAndLogAll<K(!new), V(!new)>(m: Hashmap<K, V>, memory: bool, es: seq<Entry<K, V>>)
      returns (log: seq<Logged<K, V>>)
    requires m.Valid() && m.sz == 0
    modifies m
    ensures m.Valid() && |log| == |es| && ShowsLine(m, log)
    ensures forall i :: 0 <= i < |es| ==> log[i].entry == es[i]
    ensures memory && old(m.cap) == 0 && |es| < MAX_ENTRIES ==> LogFits(log)
    ensures es != [] ==> m.capBits == log[|es| - 1].bits
  {
    log := [];
    EmptyShows(m);
    for i := 0 to |es|
      invariant m.Valid() && ShowsLine(m, log) && Logs(log, es, i)
      invariant i > 0 ==> m.capBits == log[i - 1].bits
      invariant memory && old(m.cap) == 0 && |es| < MAX_ENTRIES ==> Grown(m) && m.sz == i && LogFits(log)
    {
      var l := AppendAndLog(m, memory, es[i], log);
      LogsNext(log, es, l);
      if LogFits(log) && FitsAt(l, i + 1) { LogFitsNext(log, l); }
      log := log + [l];
    }
  }

  /** The first `n` appends are logged. */
  ghost predicate Logs<K, V>(log: seq<Logged<K, V>>, es: seq<Entry<K, V>>, n: nat) {
    |log| == n <= |es| && forall i :: 0 <= i < n ==> log[i].entry == es[i]
  }

  lemma {:induction false} LogsNext<K, V>(log: seq<Logged<K, V>>, es: seq<Entry<K, V>>, l: Logged<K, V>)
    requires Logs(log, es, |log|) && |log| < |es| && l.entry == es[|log|]
    ensures Logs(log + [l], es, |log| + 1)
  {
  }

  lemma {:induction false} LogFitsNext<K, V>(log: seq<Logged<K, V>>, l: Logged<K, V>)
    requires LogFits(log) && FitsAt(l, |log| + 1)
    ensures LogFits(log + [l])
  {
  }

  lemma {:induction false} EmptyShows<K(!new), V(!new)>(m: Hashmap<K, V>)
    requires m.Valid() && m.sz == 0
    ensures ShowsLine(m, [])
  {
    forall k ensures m.Order(k) == Turned(Line([], 0, m.equalFn, k), m.capBits % 2 == 1) { EmptyOrder(m, k); }
  }

  /** Any sequence of appends followed by a lookup, through every growth and failed allocation. The
      lookup finds the last value appended under the key while the number of bucket bits had its
      present parity, or the first value appended if there is none. So it finds the last value
      appended exactly when the map has grown an even number of times since, or the values of those
      two appends are equal. With memory for all of them, a fresh map grows exactly when three quarters
      of it would be exceeded. */
  method FindAfterAppends<K(!new), V(!new)>(m: Hashmap<K, V>, memory: bool, es: seq<Entry<K, V>>, key: K)
      returns (log: seq<Logged<K, V>>, r: Option<V>, ghost last: Option<nat>, ghost front: Option<nat>)
    requires m.Valid() && m.sz == 0
    modifies m
    ensures m.Valid() && |log| == |es| && forall i :: 0 <= i < |es| ==> log[i].entry == es[i]
    ensures memory && old(m.cap) == 0 && |es| < MAX_ENTRIES ==> LogFits(log)
    ensures es != [] ==> m.capBits == log[|es| - 1].bits
    ensures front == FrontAppend(log, m.equalFn, key, m.capBits) && last == LastAppend(log, m.equalFn, key)
    ensures r == match front case None => None case Some(i) => Some(log[i].entry.value)
    ensures last.Some? <==> front.Some?
    ensures last.Some? ==> (r == Some(log[last.value].entry.value)
                            <==> log[last.value].bits % 2 == m.capBits % 2
                                 || log[front.value].entry.value == log[last.value].entry.value)
  {
    log := AppendAndLogAll(m, memory, es);
    r := m.Find(key);
    LineEnds(log, |log|, m.equalFn, key);
    last, front := LastAppend(log, m.equalFn, key), FrontAppend(log, m.equalFn, key, m.capBits);
  }

  lemma EmptyOrder<K(!new), V(!new)>(m: Hashmap<K, V>, k: K)
    requires m.Valid() && m.sz == 0
    ensures m.Order(k) == []
  {
    m.BucketOf(k);
    assert Flat(m.buckets) == [];
    if m.cap > 0 {
      var chain := m.buckets[m.Place(m.capBits)(k)];
      OrderHasValues(chain, |chain|, m.equalFn, k);
      assert multiset(OrderIn(chain, m.equalFn, k)) == multiset{};
      assert |multiset(OrderIn(chain, m.equalFn, k))| == |OrderIn(chain, m.equalFn, k)|;
    }
  }

  /** The last append of `k`, whatever the bits. */
  ghost function LastAppend<K, V>(log: seq<Logged<K, V>>, f: (K, K) -> bool, k: K): (r: Option<nat>)
    ensures r.Some? ==> r.value < |log| && Appended(log[r.value], f, k)
    ensures forall i :: 0 <= i < |log| && Appended(log[i], f, k) ==> r.Some? && i <= r.value
  {
    var even, odd := LastWith(log, |log|, f, k, 0), LastWith(log, |log|, f, k, 1);
    if even.Some? && (odd.None? || odd.value < even.value) then even else odd
  }

  /** One append with all allocations granted, seen from one key. */
  method AppendGranted<K(!new), V(!new)>(m: Hashmap<K, V>, key: K, value: V, ghost k: K)
    requires m.Valid() && m.capBits < MAX_CAP_BITS
    modifies m
    ensures m.Valid() && m.sz == old(m.sz) + 1
    ensures m.capBits == if old(!m.NeedsToGrow()) then old(m.capBits)
                         else if old(m.cap) == 0 then 2 else old(m.capBits) + 1
    ensures m.Order(k)
            == AfterAppend(old(m.Order(k)), m.capBits != old(m.capBits), true, Entry(key, value), m.equalFn, k)
  {
    var err, prior := m.Insert(key, value, Append, true, true);
  }

  /** The documented order fails: two values appended under one key, then two other entries, the
      second of which makes a fresh map grow; the lookup finds the older value. */
  method GrowthHidesLastAppend<K(!new), V(!new)>(m: Hashmap<K, V>, k: K, a: K, b: K, x: V, y: V) returns (r: Option<V>)
    requires m.Valid() && m.sz == 0 && m.cap == 0 && !m.equalFn(a, k) && !m.equalFn(b, k)
    modifies m
    ensures m.Valid() && r == Some(x) && m.Order(k) == [x, y]
  {
    assert Pow2(2) == 4 && m.equalFn(k, k);
    EmptyOrder(m, k);
    FourAppends(m.equalFn, k, a, b, x, y);
    AppendGranted(m, k, x, k);
    assert m.cap == 4 && !m.NeedsToGrow();
    AppendGranted(m, k, y, k);
    assert !m.NeedsToGrow();
    AppendGranted(m, a, x, k);
    assert m.NeedsToGrow();
    AppendGranted(m, b, x, k);
    r := m.Find(k);
  }

  lemma FourAppends<K, V>(f: (K, K) -> bool, k: K, a: K, b: K, x: V, y: V)
    requires f(k, k) && !f(a, k) && !f(b, k)
    ensures AfterAppend([], true, true, Entry(k, x), f, k) == [x]
    ensures AfterAppend([x], false, true, Entry(k, y), f, k) == [y, x]
    ensures AfterAppend([y, x], false, true, Entry(a, x), f, k) == [y, x]
    ensures AfterAppend([y, x], true, true, Entry(b, x), f, k) == [x, y]
  {
    assert Reversed<V>([]) == [] && Reversed([y, x]) == [x, y];
  }

  /** The same failure read off the log: of the two values appended under key 7 before the map grew,
      the lookup finds the older one. */
  lemma {:induction false} OlderAppendInFront()
    ensures var log := [Logged(Entry(7, 1), true, 2), Logged(Entry(7, 2), true, 2), Logged(Entry(8, 3), true, 2),
                        Logged(Entry(9, 4), true, 3)];
            var f := (a: int, b: int) => a == b;
            FrontAppend(log, f, 7, 3) == Some(0) && LastAppend(log, f, 7) == Some(1)
  {
    var log := [Logged(Entry(7, 1), true, 2), Logged(Entry(7, 2), true, 2), Logged(Entry(8, 3), true, 2),
                Logged(Entry(9, 4), true, 3)];
    var f := (a: int, b: int) => a == b;
    assert Appended(log[0], f, 7) && Appended(log[1], f, 7) && !Appended(log[2], f, 7) && !Appended(log[3], f, 7);
    assert LastWith(log, 4, f, 7, 1) == None;
  }
}
