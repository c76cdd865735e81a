/**
 The generic hash map: chained buckets that are rehashed into twice as many
 buckets on growth, used as a map (ADD, SET, UPDATE) and as a multimap (APPEND).

 A bucket chain is the sequence of its entries from the head.  Everything the map
 promises is stated through `Values(k)`, the unordered collection of values stored
 under keys equal to `k`.
 */
module HashMap {
  import opened Common
  import opened Powers

  const HASH_MULTIPLIER: nat := 11400714819323198485
  const MIN_CAP_BITS: nat := 2
  const MAX_CAP_BITS: nat := 60   // a larger bucket array exceeds the address space, so calloc fails
  const MAX_ENTRIES: nat := 0x400_0000_0000_0000

  datatype Entry<K, V> = Entry(key: K, value: V)
  datatype Strategy = Add | Set | Update | Append

  /** `hash_bits`: the upper `bits` bits of the shuffled hash. */
  function HashBits(h: u64, bits: nat): (r: nat)
    requires bits <= 64
  {
    ShiftRight(h * HASH_MULTIPLIER % TWO64, 64 - bits)
  }

  lemma {:induction false} HashBitsInRange(h: u64, bits: nat)
    requires bits <= 64
    ensures HashBits(h, bits) < Pow2(bits)
  {
    Pow2Of64();
    Pow2Split(64, 64 - bits);
    DivBound(h * HASH_MULTIPLIER % TWO64, Pow2(64 - bits), Pow2(bits));
  }

  // ----- multiset algebra

  lemma Assoc<T>(a: multiset<T>, b: multiset<T>, c: multiset<T>)
    ensures a + b + c == a + (b + c)
  {
  }

  lemma AddEmpty<T>(a: multiset<T>)
    ensures a + multiset{} == a
  {
  }

  lemma SwapLast<T>(a: multiset<T>, b: multiset<T>, c: multiset<T>)
    ensures a + b + c == a + c + b
  {
  }

  lemma Cancel<T>(a: multiset<T>, b: multiset<T>, c: multiset<T>)
    requires a + c == b + c
    ensures a == b
  {
    assert a == (a + c) - c;
  }

  lemma CancelInner<T>(x: multiset<T>, y: multiset<T>, a: multiset<T>, b: multiset<T>, c: multiset<T>)
    requires x + (a + c) == y + (b + c)
    ensures x + a == y + b
  {
    Assoc(x, a, c);
    Assoc(y, b, c);
    Cancel(x + a, y + b, c);
  }

  // ----- the values stored under one key

  /** What the entry `e` contributes to the values of key `k`. */
  ghost function Contribution<K, V>(e: Entry<K, V>, f: (K, K) -> bool, k: K): multiset<V> {
    if f(e.key, k) then multiset{e.value} else multiset{}
  }

  ghost function ValuesUpTo<K, V>(s: seq<Entry<K, V>>, n: nat, f: (K, K) -> bool, k: K): (m: multiset<V>)
    requires n <= |s|
  {
    if n == 0 then multiset{} else ValuesUpTo(s, n - 1, f, k) + Contribution(s[n - 1], f, k)
  }

  /** The values in `s` stored under keys that `f` equates with `k`. */
  ghost function ValuesIn<K, V>(s: seq<Entry<K, V>>, f: (K, K) -> bool, k: K): (m: multiset<V>) {
    ValuesUpTo(s, |s|, f, k)
  }

  lemma {:induction false} ValuesOfPrefix<K, V>(s: seq<Entry<K, V>>, t: seq<Entry<K, V>>, n: nat, f: (K, K) -> bool,
                                                k: K)
    requires n <= |s| && n <= |t| && forall i :: 0 <= i < n ==> s[i] == t[i]
    ensures ValuesUpTo(s, n, f, k) == ValuesUpTo(t, n, f, k)
    decreases n
  {
    if n > 0 { ValuesOfPrefix(s, t, n - 1, f, k); }
  }

  lemma {:induction false} ValuesPastPrefix<K, V>(s: seq<Entry<K, V>>, t: seq<Entry<K, V>>, u: seq<Entry<K, V>>, n: nat,
                                                  f: (K, K) -> bool, k: K)
    requires n <= |t| && |u| == |s| + |t|
    requires forall i :: 0 <= i < |s| ==> u[i] == s[i]
    requires forall i :: 0 <= i < |t| ==> u[|s| + i] == t[i]
    ensures ValuesUpTo(u, |s| + n, f, k) == ValuesIn(s, f, k) + ValuesUpTo(t, n, f, k)
    decreases n
  {
    if n == 0 {
      ValuesOfPrefix(u, s, |s|, f, k);
      AddEmpty(ValuesIn(s, f, k));
    } else {
      ValuesPastPrefix(s, t, u, n - 1, f, k);
      assert u[|s| + (n - 1)] == t[n - 1];
      Assoc(ValuesIn(s, f, k), ValuesUpTo(t, n - 1, f, k), Contribution(t[n - 1], f, k));
    }
  }

  lemma ValuesInConcat<K, V>(s: seq<Entry<K, V>>, t: seq<Entry<K, V>>, f: (K, K) -> bool, k: K)
    ensures ValuesIn(s + t, f, k) == ValuesIn(s, f, k) + ValuesIn(t, f, k)
  {
    ValuesPastPrefix(s, t, s + t, |t|, f, k);
  }

  lemma ValuesInPush<K, V>(s: seq<Entry<K, V>>, e: Entry<K, V>, f: (K, K) -> bool, k: K)
    ensures ValuesIn(s + [e], f, k) == ValuesIn(s, f, k) + Contribution(e, f, k)
  {
    ValuesOfPrefix(s + [e], s, |s|, f, k);
  }

  lemma ValuesInAround<K, V>(a: seq<Entry<K, V>>, e: Entry<K, V>, b: seq<Entry<K, V>>, f: (K, K) -> bool, k: K)
    ensures ValuesIn(a + [e] + b, f, k) == ValuesIn(a, f, k) + Contribution(e, f, k) + ValuesIn(b, f, k)
  {
    ValuesInConcat(a + [e], b, f, k);
    ValuesInPush(a, e, f, k);
  }

  lemma ValuesInDrop<K, V>(s: seq<Entry<K, V>>, i: nat, f: (K, K) -> bool, k: K)
    requires i < |s|
    ensures ValuesIn(s, f, k) == ValuesIn(s[..i] + s[i + 1..], f, k) + Contribution(s[i], f, k)
  {
    assert s == s[..i] + [s[i]] + s[i + 1..];
    ValuesInWithout(s[..i], s[i], s[i + 1..], f, k);
  }

  lemma ValuesInWithout<K, V>(a: seq<Entry<K, V>>, e: Entry<K, V>, b: seq<Entry<K, V>>, f: (K, K) -> bool, k: K)
    ensures ValuesIn(a + [e] + b, f, k) == ValuesIn(a + b, f, k) + Contribution(e, f, k)
  {
    ValuesInAround(a, e, b, f, k);
    ValuesInConcat(a, b, f, k);
    SwapLast(ValuesIn(a, f, k), Contribution(e, f, k), ValuesIn(b, f, k));
  }

  /** The values of a key do not depend on the order of the entries. */
  lemma {:induction false} ValuesInPermuted<K, V>(s: seq<Entry<K, V>>, t: seq<Entry<K, V>>, f: (K, K) -> bool, k: K)
    requires multiset(s) == multiset(t)
    ensures ValuesIn(s, f, k) == ValuesIn(t, f, k)
    decreases |s|
  {
    if s == [] {
      assert |multiset(t)| == 0;
      assert t == [];
    } else {
      var n := |s| - 1;
      var i := SharedElement(s, t, n);
      ValuesInPermuted(s[..n], t[..i] + t[i + 1..], f, k);
      ValuesInDrop(t, i, f, k);
      ValuesOfPrefix(s, s[..n], n, f, k);
    }
  }

  lemma {:induction false} ValuesUpToNone<K, V>(s: seq<Entry<K, V>>, n: nat, f: (K, K) -> bool, k: K)
    requires n <= |s| && forall i :: 0 <= i < n ==> !f(s[i].key, k)
    ensures ValuesUpTo(s, n, f, k) == multiset{}
    decreases n
  {
    if n > 0 { ValuesUpToNone(s, n - 1, f, k); }
  }

  /** Contents that differ by swapping `x` for `y` give values that differ the same way. */
  lemma ValuesSwapped<K(!new), V>(s: seq<Entry<K, V>>, t: seq<Entry<K, V>>, x: seq<Entry<K, V>>, y: seq<Entry<K, V>>,
                                  f: (K, K) -> bool, k: K)
    requires multiset(t) + multiset(x) == multiset(s) + multiset(y)
    ensures ValuesIn(t, f, k) + ValuesIn(x, f, k) == ValuesIn(s, f, k) + ValuesIn(y, f, k)
  {
    ValuesInPermuted(t + x, s + y, f, k);
    ValuesInConcat(t, x, f, k);
    ValuesInConcat(s, y, f, k);
  }

  /** `f` is an equality on keys. */
  ghost predicate Equivalence<K(!new)>(f: (K, K) -> bool) {
    && (forall a :: f(a, a))
    && (forall a, b :: f(a, b) ==> f(b, a))
    && (forall a, b, c :: f(a, b) && f(b, c) ==> f(a, c))
  }

  lemma {:induction false} EqualKeysUpTo<K(!new), V>(s: seq<Entry<K, V>>, n: nat, f: (K, K) -> bool, a: K, b: K)
    requires Equivalence(f) && f(a, b) && n <= |s|
    ensures ValuesUpTo(s, n, f, a) == ValuesUpTo(s, n, f, b)
    decreases n
  {
    if n > 0 {
      EqualKeysUpTo(s, n - 1, f, a, b);
      var c := s[n - 1].key;
      assert f(b, a);
      assert f(c, a) <==> f(c, b);
    }
  }

  /** Equal keys have the same values. */
  lemma EqualKeysShare<K(!new), V>(s: seq<Entry<K, V>>, f: (K, K) -> bool, a: K, b: K)
    requires Equivalence(f) && f(a, b)
    ensures ValuesIn(s, f, a) == ValuesIn(s, f, b)
  {
    EqualKeysUpTo(s, |s|, f, a, b);
  }

  /** What one call of `hashmap__insert` does to the contents: `s` before, `t` after. */
  ghost predicate Inserted<K, V>(s: seq<Entry<K, V>>, t: seq<Entry<K, V>>, f: (K, K) -> bool, e: Entry<K, V>,
                                 strategy: Strategy, err: int, prior: Option<Entry<K, V>>)
  {
    var found := strategy != Append && ValuesIn(s, f, e.key) != multiset{};
    if found && strategy == Add then
      err == EEXIST && multiset(t) == multiset(s)
    else if found then
      && err == OK && prior.Some? && f(prior.value.key, e.key)
      && prior.value.value in ValuesIn(s, f, e.key)
      && multiset(t) + multiset{prior.value} == multiset(s) + multiset{e}
    else if strategy == Update then
      err == ENOENT && multiset(t) == multiset(s)
    else if err == OK then
      multiset(t) == multiset(s) + multiset{e}
    else
      err == ENOMEM && multiset(t) == multiset(s)
  }

  /** No key occurs twice. */
  ghost predicate UniqueKeys<K(!new), V>(s: seq<Entry<K, V>>, f: (K, K) -> bool) {
    forall k :: |ValuesIn(s, f, k)| <= 1
  }

  lemma ValuesOfOne<K, V>(e: Entry<K, V>, f: (K, K) -> bool, k: K)
    ensures ValuesIn([e], f, k) == Contribution(e, f, k)
  {
    assert [e] == [] + [e];
    ValuesInPush([], e, f, k);
  }

  /** In a map without repeated keys, a stored key has exactly its value. */
  lemma OnlyValue<K(!new), V>(s: seq<Entry<K, V>>, f: (K, K) -> bool, k: K, v: V)
    requires UniqueKeys(s, f) && v in ValuesIn(s, f, k)
    ensures ValuesIn(s, f, k) == multiset{v}
  {
    var m := ValuesIn(s, f, k);
    assert |m| <= 1;
    assert m == multiset{v} + (m - multiset{v});
    assert |m| == 1 + |m - multiset{v}|;
  }

  /** The effect of an insertion on the values of every key, for maps without repeated keys. */
  lemma InsertedValues<K(!new), V>(s: seq<Entry<K, V>>, t: seq<Entry<K, V>>, f: (K, K) -> bool, e: Entry<K, V>,
                                   strategy: Strategy, err: int, prior: Option<Entry<K, V>>, k: K)
    requires Equivalence(f) && UniqueKeys(s, f) && strategy != Append
    requires Inserted(s, t, f, e, strategy, err, prior)
    ensures ValuesIn(t, f, k) == if err == OK && f(e.key, k) then multiset{e.value} else ValuesIn(s, f, k)
  {
    if err != OK {
      ValuesInPermuted(s, t, f, k);
    } else if ValuesIn(s, f, e.key) != multiset{} {
      OverwrittenValues(s, t, f, prior.value, e, k);
    } else {
      AddedValues(s, t, f, e, k);
      if f(e.key, k) { EqualKeysShare(s, f, e.key, k); }
    }
  }

  lemma AddedValues<K(!new), V>(s: seq<Entry<K, V>>, t: seq<Entry<K, V>>, f: (K, K) -> bool, e: Entry<K, V>, k: K)
    requires multiset(t) == multiset(s) + multiset{e}
    ensures ValuesIn(t, f, k) == ValuesIn(s, f, k) + Contribution(e, f, k)
  {
    ValuesInPermuted(t, s + [e], f, k);
    ValuesInPush(s, e, f, k);
  }

  /** Which values each key has after an append. */
  lemma AppendedMembers<K(!new), V(!new)>(s: seq<Entry<K, V>>, t: seq<Entry<K, V>>, f: (K, K) -> bool, e: Entry<K, V>,
                                          ok: bool)
    requires multiset(t) == multiset(s) + (if ok then multiset{e} else multiset{})
    ensures forall k, v :: v in ValuesIn(t, f, k) <==> v in ValuesIn(s, f, k) || (ok && f(e.key, k) && v == e.value)
  {
    forall k, v ensures v in ValuesIn(t, f, k) <==> v in ValuesIn(s, f, k) || (ok && f(e.key, k) && v == e.value) {
      if ok {
        AddedValues(s, t, f, e, k);
      } else {
        ValuesInPermuted(s, t, f, k);
      }
    }
  }

  lemma {:induction false} OverwrittenValues<K(!new), V>(s: seq<Entry<K, V>>, t: seq<Entry<K, V>>, f: (K, K) -> bool,
                                      p: Entry<K, V>, e: Entry<K, V>, k: K)
    requires Equivalence(f) && UniqueKeys(s, f) && f(p.key, e.key) && p.value in ValuesIn(s, f, e.key)
    requires multiset(t) + multiset{p} == multiset(s) + multiset{e}
    ensures ValuesIn(t, f, k) == if f(e.key, k) then multiset{e.value} else ValuesIn(s, f, k)
  {
    ValuesSwapped(s, t, [p], [e], f, k);
    ValuesOfOne(p, f, k);
    ValuesOfOne(e, f, k);
    assert ValuesIn(t, f, k) + Contribution(p, f, k) == ValuesIn(s, f, k) + Contribution(e, f, k);
    assert f(e.key, p.key);
    assert f(p.key, k) <==> f(e.key, k);
    if f(e.key, k) {
      EqualKeysShare(s, f, e.key, k);
      OnlyValue(s, f, k, p.value);
      Cancel(ValuesIn(t, f, k), multiset{e.value}, multiset{p.value});
    } else {
      Cancel(ValuesIn(t, f, k), ValuesIn(s, f, k), multiset{});
    }
  }

  lemma InsertedKeepsUnique<K(!new), V>(s: seq<Entry<K, V>>, t: seq<Entry<K, V>>, f: (K, K) -> bool, e: Entry<K, V>,
                                        strategy: Strategy, err: int, prior: Option<Entry<K, V>>)
    requires Equivalence(f) && strategy != Append && Inserted(s, t, f, e, strategy, err, prior)
    ensures UniqueKeys(s, f) ==> UniqueKeys(t, f)
  {
    if UniqueKeys(s, f) {
      forall k ensures |ValuesIn(t, f, k)| <= 1 {
        InsertedValues(s, t, f, e, strategy, err, prior, k);
        assert |ValuesIn(s, f, k)| <= 1;
      }
    }
  }

  /** Removing an entry removes its value under its key. */
  lemma RemovedValues<K(!new), V>(s: seq<Entry<K, V>>, t: seq<Entry<K, V>>, f: (K, K) -> bool, e: Entry<K, V>)
    requires multiset(t) + multiset{e} == multiset(s)
    ensures forall k :: ValuesIn(s, f, k) == ValuesIn(t, f, k) + Contribution(e, f, k)
    ensures UniqueKeys(s, f) ==> UniqueKeys(t, f)
  {
    forall k
      ensures ValuesIn(s, f, k) == ValuesIn(t, f, k) + Contribution(e, f, k)
      ensures UniqueKeys(s, f) ==> |ValuesIn(t, f, k)| <= 1
    {
      ValuesSwapped(s, t, [e], [], f, k);
      ValuesOfOne(e, f, k);
      assert ValuesIn(t, f, k) + Contribution(e, f, k) == ValuesIn(s, f, k) + multiset{};
      assert ValuesIn(s, f, k) == ValuesIn(t, f, k) + Contribution(e, f, k);
      assert |ValuesIn(s, f, k)| == |ValuesIn(t, f, k)| + |Contribution(e, f, k)|;
    }
  }

  // ----- the order of a key's values

  /** What the entry `e` contributes to the ordered values of key `k`. */
  ghost function Own<K, V>(e: Entry<K, V>, f: (K, K) -> bool, k: K): seq<V> {
    if f(e.key, k) then [e.value] else []
  }

  ghost function OrderUpTo<K, V>(s: seq<Entry<K, V>>, n: nat, f: (K, K) -> bool, k: K): seq<V>
    requires n <= |s|
  {
    if n == 0 then [] else OrderUpTo(s, n - 1, f, k) + Own(s[n - 1], f, k)
  }

  /** The values of key `k` in a chain, from the head. */
  ghost function OrderIn<K, V>(s: seq<Entry<K, V>>, f: (K, K) -> bool, k: K): seq<V> {
    OrderUpTo(s, |s|, f, k)
  }

  ghost function Reversed<T>(s: seq<T>): (r: seq<T>)
    ensures |r| == |s| && forall i :: 0 <= i < |s| ==> r[i] == s[|s| - 1 - i]
  {
    seq(|s|, i requires 0 <= i < |s| => s[|s| - 1 - i])
  }

  lemma ReversedPush<T>(s: seq<T>, x: seq<T>)
    requires |x| <= 1
    ensures Reversed(s + x) == x + Reversed(s) && Reversed(x + s) == Reversed(s) + x
  {
  }

  /** A key's values after an append: growth reverses them, and a new entry comes first. */
  ghost function AfterAppend<K, V>(o: seq<V>, grew: bool, ok: bool, e: Entry<K, V>, f: (K, K) -> bool, k: K): seq<V> {
    var rest := if grew then Reversed(o) else o;
    if ok then Own(e, f, k) + rest else rest
  }

  /** An entry at the head comes first. */
  lemma {:induction false} OrderPushUpTo<K, V>(e: Entry<K, V>, s: seq<Entry<K, V>>, t: seq<Entry<K, V>>, n: nat,
                                               f: (K, K) -> bool, k: K)
    requires t == [e] + s && n <= |s|
    ensures OrderUpTo(t, n + 1, f, k) == Own(e, f, k) + OrderUpTo(s, n, f, k)
    decreases n
  {
    if n > 0 {
      OrderPushUpTo(e, s, t, n - 1, f, k);
      assert t[n] == s[n - 1];
      assert OrderUpTo(t, n + 1, f, k) == OrderUpTo(t, n, f, k) + Own(s[n - 1], f, k);
    } else {
      assert OrderUpTo(t, 1, f, k) == OrderUpTo(t, 0, f, k) + Own(e, f, k);
    }
  }

  lemma OrderPush<K, V>(e: Entry<K, V>, s: seq<Entry<K, V>>, f: (K, K) -> bool, k: K)
    ensures OrderIn([e] + s, f, k) == Own(e, f, k) + OrderIn(s, f, k)
  {
    OrderPushUpTo(e, s, [e] + s, |s|, f, k);
  }

  lemma {:induction false} OrderNone<K, V>(s: seq<Entry<K, V>>, n: nat, f: (K, K) -> bool, k: K)
    requires n <= |s| && forall i :: 0 <= i < n ==> !f(s[i].key, k)
    ensures OrderUpTo(s, n, f, k) == []
    decreases n
  {
    if n > 0 { OrderNone(s, n - 1, f, k); }
  }

  /** The first entry of the key holds its first value. */
  lemma {:induction false} OrderFirst<K, V>(s: seq<Entry<K, V>>, i: nat, n: nat, f: (K, K) -> bool, k: K)
    requires i < n <= |s| && f(s[i].key, k) && forall j :: 0 <= j < i ==> !f(s[j].key, k)
    ensures OrderUpTo(s, n, f, k) != [] && OrderUpTo(s, n, f, k)[0] == s[i].value
    decreases n
  {
    if n == i + 1 {
      OrderNone(s, i, f, k);
    } else {
      OrderFirst(s, i, n - 1, f, k);
    }
  }

  /** Keys that `f` equates have one place. */
  ghost predicate Respects<K(!new)>(f: (K, K) -> bool, place: K -> nat) {
    forall a, b {:trigger f(a, b)} :: f(a, b) ==> place(a) == place(b)
  }

  /** The ordered values of a key in a bucket array. */
  ghost function OrderOf<K, V>(b: seq<seq<Entry<K, V>>>, place: K -> nat, f: (K, K) -> bool, k: K): seq<V> {
    if place(k) < |b| then OrderIn(b[place(k)], f, k) else []
  }

  /** Pushing an entry onto its chain puts its value first under its key and moves nothing else. */
  lemma PushFrontOrder<K(!new), V>(b: seq<seq<Entry<K, V>>>, place: K -> nat, e: Entry<K, V>, f: (K, K) -> bool, k: K)
    requires place(e.key) < |b| && Respects(f, place)
    ensures OrderOf(PushFront(b, place, e), place, f, k) == Own(e, f, k) + OrderOf(b, place, f, k)
  {
    if place(k) == place(e.key) {
      OrderPush(e, b[place(k)], f, k);
    } else {
      assert !f(e.key, k);
    }
  }

  /** Each key's values in `b` are the first `n` of `chain`, reversed, before those in `before`. */
  ghost predicate Relinked<K(!new), V>(chain: seq<Entry<K, V>>, n: nat, before: seq<seq<Entry<K, V>>>,
                                       b: seq<seq<Entry<K, V>>>, place: K -> nat, f: (K, K) -> bool)
    requires n <= |chain|
  {
    forall k :: OrderOf(b, place, f, k) == Reversed(OrderUpTo(chain, n, f, k)) + OrderOf(before, place, f, k)
  }

  lemma RelinkOne<K(!new), V>(chain: seq<Entry<K, V>>, n: nat, before: seq<seq<Entry<K, V>>>,
                              b: seq<seq<Entry<K, V>>>, place: K -> nat, f: (K, K) -> bool)
    requires n < |chain| && Relinked(chain, n, before, b, place, f)
    requires place(chain[n].key) < |b| && Respects(f, place)
    ensures Relinked(chain, n + 1, before, PushFront(b, place, chain[n]), place, f)
  {
    var b' := PushFront(b, place, chain[n]);
    forall k
      ensures OrderOf(b', place, f, k) == Reversed(OrderUpTo(chain, n + 1, f, k)) + OrderOf(before, place, f, k)
    {
      PushFrontOrder(b, place, chain[n], f, k);
      assert OrderOf(b, place, f, k) == Reversed(OrderUpTo(chain, n, f, k)) + OrderOf(before, place, f, k);
      RelinkedOrder(OrderUpTo(chain, n, f, k), Own(chain[n], f, k), OrderOf(before, place, f, k));
    }
  }

  lemma RelinkedOrder<T>(s: seq<T>, x: seq<T>, rest: seq<T>)
    requires |x| <= 1
    ensures x + (Reversed(s) + rest) == Reversed(s + x) + rest
  {
    ReversedPush(s, x);
  }

  /** The keys placed in the first `n` old buckets have their values reversed, the others none yet. */
  ghost predicate Flipped<K(!new), V>(b: seq<seq<Entry<K, V>>>, was: K -> nat, n: nat,
                                      grown: seq<seq<Entry<K, V>>>, place: K -> nat, f: (K, K) -> bool)
    requires n <= |b|
  {
    forall k :: OrderOf(grown, place, f, k) == if was(k) < n then Reversed(OrderOf(b, was, f, k)) else []
  }

  lemma FlipOne<K(!new), V>(b: seq<seq<Entry<K, V>>>, was: K -> nat, n: nat, before: seq<seq<Entry<K, V>>>,
                            grown: seq<seq<Entry<K, V>>>, place: K -> nat, f: (K, K) -> bool)
    requires n < |b| && Placed(b, was) && Respects(f, was)
    requires Flipped(b, was, n, before, place, f) && Relinked(b[n], |b[n]|, before, grown, place, f)
    ensures Flipped(b, was, n + 1, grown, place, f)
  {
    forall k ensures OrderOf(grown, place, f, k) == if was(k) < n + 1 then Reversed(OrderOf(b, was, f, k)) else [] {
      assert OrderOf(before, place, f, k) == if was(k) < n then Reversed(OrderOf(b, was, f, k)) else [];
      if was(k) != n {
        forall j | 0 <= j < |b[n]| ensures !f(b[n][j].key, k) { assert was(b[n][j].key) == n; }
        OrderNone(b[n], |b[n]|, f, k);
      }
    }
  }

  lemma OrderFlipped<K(!new), V>(b: seq<seq<Entry<K, V>>>, was: K -> nat, grown: seq<seq<Entry<K, V>>>, place: K -> nat,
                                 f: (K, K) -> bool)
    requires Flipped(b, was, |b|, grown, place, f)
    ensures forall k :: OrderOf(grown, place, f, k) == Reversed(OrderOf(b, was, f, k))
  {
    forall k ensures OrderOf(grown, place, f, k) == Reversed(OrderOf(b, was, f, k)) {
      assert OrderOf(grown, place, f, k) == if was(k) < |b| then Reversed(OrderOf(b, was, f, k)) else [];
    }
  }

  lemma {:induction false} OrderHasValues<K, V>(s: seq<Entry<K, V>>, n: nat, f: (K, K) -> bool, k: K)
    requires n <= |s|
    ensures multiset(OrderUpTo(s, n, f, k)) == ValuesUpTo(s, n, f, k)
    decreases n
  {
    if n > 0 { OrderHasValues(s, n - 1, f, k); }
  }

  /** `t` is `s` without its `i`-th entry. */
  ghost predicate Dropped<T>(s: seq<T>, t: seq<T>, i: nat) {
    && i < |s| && |t| == |s| - 1
    && (forall j :: 0 <= j < i ==> t[j] == s[j])
    && (forall j :: i <= j < |t| ==> t[j] == s[j + 1])
  }

  /** Without its `i`-th entry a chain has the same values for other keys, and without its first entry
      of a key one less for that key. */
  lemma {:induction false} OrderDrop<K, V>(s: seq<Entry<K, V>>, t: seq<Entry<K, V>>, i: nat, n: nat, f: (K, K) -> bool,
                                           k: K)
    requires Dropped(s, t, i) && i <= n < |s|
    requires f(s[i].key, k) ==> OrderUpTo(s, i, f, k) == []
    ensures OrderUpTo(s, n + 1, f, k) == Own(s[i], f, k) + OrderUpTo(t, n, f, k)
    decreases n
  {
    if n == i {
      OrderSame(s, t, i, i, f, k);
    } else {
      OrderDrop(s, t, i, n - 1, f, k);
      DroppedAt(s, t, i, n - 1);
      AppendLast(Own(s[i], f, k), OrderUpTo(t, n - 1, f, k), Own(s[n], f, k));
    }
  }

  lemma AppendLast<T>(a: seq<T>, b: seq<T>, c: seq<T>)
    ensures (a + b) + c == a + (b + c)
  {
  }

  lemma DroppedAt<T>(s: seq<T>, t: seq<T>, i: nat, j: nat)
    requires Dropped(s, t, i) && j < |t|
    ensures t[j] == if j < i then s[j] else s[j + 1]
  {
  }

  lemma {:induction false} OrderSame<K, V>(s: seq<Entry<K, V>>, t: seq<Entry<K, V>>, i: nat, n: nat, f: (K, K) -> bool,
                                           k: K)
    requires Dropped(s, t, i) && n <= i
    ensures OrderUpTo(s, n, f, k) == OrderUpTo(t, n, f, k)
    decreases n
  {
    if n > 0 {
      OrderSame(s, t, i, n - 1, f, k);
      assert s[n - 1] == t[n - 1];
    }
  }

  /** Removing the first entry of a key takes its value from the front of that key's, and no other. */
  lemma {:induction false} RemovedOrder<K(!new), V>(b: seq<seq<Entry<K, V>>>, place: K -> nat, h: nat, i: nat,
                                                    f: (K, K) -> bool, k: K)
    requires h < |b| && i < |b[h]| && place(b[h][i].key) == h && Respects(f, place) && Equivalence(f)
    requires forall j :: 0 <= j < i ==> !f(b[h][j].key, b[h][i].key)
    ensures OrderOf(b, place, f, k) == Own(b[h][i], f, k) + OrderOf(ReplaceAt(b, h, i, []), place, f, k)
  {
    var e := b[h][i];
    if place(k) == h {
      ChainOrder(b[h], i, f, k);
    } else {
      assert !f(e.key, k);
    }
  }

  lemma {:induction false} ChainOrder<K(!new), V>(chain: seq<Entry<K, V>>, i: nat, f: (K, K) -> bool, k: K)
    requires i < |chain| && Equivalence(f) && forall j :: 0 <= j < i ==> !f(chain[j].key, chain[i].key)
    ensures OrderIn(chain, f, k) == Own(chain[i], f, k) + OrderIn(chain[..i] + [] + chain[i + 1..], f, k)
  {
    if f(chain[i].key, k) {
      forall j | 0 <= j < i ensures !f(chain[j].key, k) { Apart(f, chain[j].key, chain[i].key, k); }
    }
    DropFirst(chain, i, f, k);
  }

  lemma {:induction false} DropFirst<K, V>(chain: seq<Entry<K, V>>, i: nat, f: (K, K) -> bool, k: K)
    requires i < |chain| && (f(chain[i].key, k) ==> forall j :: 0 <= j < i ==> !f(chain[j].key, k))
    ensures OrderIn(chain, f, k) == Own(chain[i], f, k) + OrderIn(chain[..i] + [] + chain[i + 1..], f, k)
  {
    if f(chain[i].key, k) { OrderNone(chain, i, f, k); }
    OrderDrop(chain, chain[..i] + [] + chain[i + 1..], i, |chain| - 1, f, k);
  }

  lemma Apart<K(!new)>(f: (K, K) -> bool, a: K, b: K, k: K)
    requires Equivalence(f) && !f(a, b) && f(b, k)
    ensures !f(a, k)
  {
    assert f(k, b);
  }

  // ----- bucket arrays as values

  ghost function Flat<T>(b: seq<seq<T>>): (s: seq<T>) {
    if b == [] then [] else Flat(b[..|b| - 1]) + b[|b| - 1]
  }

  /** Replacing one chain replaces its entries and no others. */
  lemma {:induction false} FlatUpdate<T>(b: seq<seq<T>>, i: nat, c: seq<T>)
    requires i < |b|
    ensures multiset(Flat(b[i := c])) + multiset(b[i]) == multiset(Flat(b)) + multiset(c)
    ensures |Flat(b[i := c])| + |b[i]| == |Flat(b)| + |c|
    decreases |b|
  {
    var b', n := b[i := c], |b| - 1;
    if i == n {
      assert b'[..n] == b[..n];
      SwapLast(multiset(Flat(b[..n])), multiset(c), multiset(b[n]));
    } else {
      assert b'[..n] == b[..n][i := c];
      FlatUpdate(b[..n], i, c);
      SwapLast(multiset(Flat(b'[..n])), multiset(b[n]), multiset(b[i]));
      SwapLast(multiset(Flat(b[..n])), multiset(b[n]), multiset(c));
    }
  }

  /** When only bucket `h` can hold matching keys, it holds all matching values. */
  lemma {:induction false} ValuesInOneBucket<K, V>(b: seq<seq<Entry<K, V>>>, h: nat, f: (K, K) -> bool, k: K)
    requires forall i, j :: 0 <= i < |b| && i != h && 0 <= j < |b[i]| ==> !f(b[i][j].key, k)
    ensures ValuesIn(Flat(b), f, k) == if h < |b| then ValuesIn(b[h], f, k) else multiset{}
    decreases |b|
  {
    if b != [] {
      var n := |b| - 1;
      ValuesInConcat(Flat(b[..n]), b[n], f, k);
      ValuesInOneBucket(b[..n], h, f, k);
      if n != h { ValuesUpToNone(b[n], |b[n]|, f, k); }
    }
  }

  /** Every entry sits in the bucket `place` assigns to its key. */
  ghost predicate Placed<K, V>(b: seq<seq<Entry<K, V>>>, place: K -> nat) {
    forall i, j :: 0 <= i < |b| && 0 <= j < |b[i]| ==> place(b[i][j].key) == i
  }

  /** `hashmap_add_entry` on the bucket of the entry's key. */
  function PushFront<K, V>(b: seq<seq<Entry<K, V>>>, place: K -> nat, e: Entry<K, V>): seq<seq<Entry<K, V>>>
    requires place(e.key) < |b|
  {
    b[place(e.key) := [e] + b[place(e.key)]]
  }

  lemma {:induction false} PushFrontKeeps<K, V>(b: seq<seq<Entry<K, V>>>, place: K -> nat, e: Entry<K, V>)
    requires place(e.key) < |b| && Placed(b, place)
    ensures Placed(PushFront(b, place, e), place)
    ensures multiset(Flat(PushFront(b, place, e))) == multiset(Flat(b)) + multiset{e}
    ensures |Flat(PushFront(b, place, e))| == |Flat(b)| + 1
  {
    var h := place(e.key);
    var b': seq<seq<Entry<K, V>>> := PushFront(b, place, e);
    FlatUpdate(b, h, [e] + b[h]);
    assert multiset([e] + b[h]) == multiset{e} + multiset(b[h]);
    Cancel(multiset(Flat(b')), multiset(Flat(b)) + multiset{e}, multiset(b[h]));
    forall i, j | 0 <= i < |b'| && 0 <= j < |b'[i]| ensures place(b'[i][j].key) == i {
      if i == h && j > 0 { assert b'[i][j] == b[i][j - 1]; }
    }
  }

  /** The bucket array with entry `i` of chain `h` replaced by `with` (dropped when it is empty). */
  function ReplaceAt<T>(b: seq<seq<T>>, h: nat, i: nat, with: seq<T>): (b': seq<seq<T>>)
    requires h < |b| && i < |b[h]|
  {
    b[h := b[h][..i] + with + b[h][i + 1..]]
  }

  lemma {:induction false} ReplaceAtContents<T>(b: seq<seq<T>>, h: nat, i: nat, with: seq<T>)
    requires h < |b| && i < |b[h]|
    ensures multiset(Flat(ReplaceAt(b, h, i, with))) + multiset{b[h][i]} == multiset(Flat(b)) + multiset(with)
    ensures |Flat(ReplaceAt(b, h, i, with))| + 1 == |Flat(b)| + |with|
  {
    var c := b[h];
    var c' := c[..i] + with + c[i + 1..];
    FlatUpdate(b, h, c');
    assert c == c[..i] + [c[i]] + c[i + 1..];
    var x, y := multiset(Flat(ReplaceAt(b, h, i, with))), multiset(Flat(b));
    MiddleOut(c[..i], [c[i]], c[i + 1..]);
    MiddleOut(c[..i], with, c[i + 1..]);
    CancelInner(x, y, multiset([c[i]]), multiset(with), multiset(c[..i]) + multiset(c[i + 1..]));
    assert multiset([c[i]]) == multiset{c[i]};
  }

  lemma MiddleOut<T>(a: seq<T>, m: seq<T>, b: seq<T>)
    ensures multiset(a + m + b) == multiset(m) + (multiset(a) + multiset(b))
  {
    assert multiset(a + m + b) == multiset(a) + multiset(m) + multiset(b);
  }

  lemma ReplaceAtPlaced<K, V>(b: seq<seq<Entry<K, V>>>, place: K -> nat, h: nat, i: nat, with: seq<Entry<K, V>>)
    requires Placed(b, place) && h < |b| && i < |b[h]|
    requires forall j :: 0 <= j < |with| ==> place(with[j].key) == h
    ensures Placed(ReplaceAt(b, h, i, with), place)
  {
    var b': seq<seq<Entry<K, V>>> := ReplaceAt(b, h, i, with);
    forall g, j | 0 <= g < |b'| && 0 <= j < |b'[g]| ensures place(b'[g][j].key) == g {
      if g == h {
        if j < i { assert b'[g][j] == b[h][j]; }
        else if j < i + |with| { assert b'[g][j] == with[j - i]; }
        else { assert b'[g][j] == b[h][j - |with| + 1]; }
      }
    }
  }

  /** A zeroed bucket array. */
  function Empties<T>(n: nat): seq<seq<T>> {
    seq(n, i => [])
  }

  lemma {:induction false} EmptiesFlat<T>(n: nat)
    ensures Flat<T>(Empties(n)) == []
    decreases n
  {
    if n > 0 {
      assert Empties<T>(n)[..n - 1] == Empties<T>(n - 1);
      EmptiesFlat<T>(n - 1);
    }
  }

  lemma TakeOneMore<T>(s: seq<T>, j: nat)
    requires j < |s|
    ensures multiset(s[..j + 1]) == multiset(s[..j]) + multiset{s[j]}
  {
    assert s[..j + 1] == s[..j] + [s[j]];
  }

  /** The relinking loop of `hashmap_grow` over one old chain: each entry is pushed onto the head of
      its new chain. */
  method RehashChain<K(!new), V>(chain: seq<Entry<K, V>>, place: K -> nat, before: seq<seq<Entry<K, V>>>,
                                 ghost f: (K, K) -> bool)
      returns (b: seq<seq<Entry<K, V>>>)
    requires Placed(before, place) && (forall k :: place(k) < |before|) && Respects(f, place)
    ensures |b| == |before| && Placed(b, place)
    ensures Relinked(chain, |chain|, before, b, place, f)
    ensures multiset(Flat(b)) == multiset(Flat(before)) + multiset(chain)
  {
    b := before;
    var j := 0;
    while j < |chain|
      invariant j <= |chain| && |b| == |before| && Placed(b, place)
      invariant multiset(Flat(b)) == multiset(Flat(before)) + multiset(chain[..j])
      invariant Relinked(chain, j, before, b, place, f)
    {
      PushFrontKeeps(b, place, chain[j]);
      RelinkOne(chain, j, before, b, place, f);
      b := PushFront(b, place, chain[j]);
      TakeOneMore(chain, j);
      Assoc(multiset(Flat(before)), multiset(chain[..j]), multiset{chain[j]});
      j := j + 1;
    }
    assert chain[..j] == chain;
  }

  /** The relinking loop of `hashmap_grow` over all old buckets. */
  method RehashAll<K(!new), V>(b: seq<seq<Entry<K, V>>>, place: K -> nat, newCap: nat,
                               ghost was: K -> nat, ghost f: (K, K) -> bool)
      returns (grown: seq<seq<Entry<K, V>>>)
    requires (forall k :: place(k) < newCap) && Placed(b, was) && Respects(f, place) && Respects(f, was)
    ensures |grown| == newCap && Placed(grown, place)
    ensures Flipped(b, was, |b|, grown, place, f)
    ensures multiset(Flat(grown)) == multiset(Flat(b)) && |Flat(grown)| == |Flat(b)|
  {
    grown := Empties(newCap);
    EmptiesFlat<Entry<K, V>>(newCap);
    var bkt := 0;
    while bkt < |b|
      invariant bkt <= |b| && |grown| == newCap && Placed(grown, place)
      invariant multiset(Flat(grown)) == multiset(Flat(b[..bkt]))
      invariant Flipped(b, was, bkt, grown, place, f)
    {
      ghost var before := grown;
      grown := RehashChain(b[bkt], place, grown, f);
      FlipOne(b, was, bkt, before, grown, place, f);
      assert b[..bkt + 1][..bkt] == b[..bkt];
      bkt := bkt + 1;
    }
    assert b[..bkt] == b;
    assert |multiset(Flat(grown))| == |Flat(grown)| && |multiset(Flat(b))| == |Flat(b)|;
  }

  lemma MultipleOfFour(bits: nat)
    requires bits >= 2
    ensures Pow2(bits) == 4 * Pow2(bits - 2)
  {
    assert Pow2(bits) == 2 * Pow2(bits - 1);
  }

  /** The integer test `n * 4 / 3 > cap` is exact for a capacity of four quarters. */
  lemma ThreeQuarters(n: nat, quarter: nat, quotient: nat)
    requires quotient == n * 4 / 3
    ensures quotient <= 4 * quarter <==> n <= 3 * quarter
  {
    assert 3 * quotient <= 4 * n <= 3 * quotient + 2;
  }

  /** The number of bucket bits of a map with `n` entries that grew only when it had to. */
  predicate FitsBits(n: nat, bits: nat) {
    bits >= 2 && n <= 3 * Pow2(bits - 2) && (bits > 2 ==> n > 3 * Pow2(bits - 3))
  }

  predicate CapOk(cap: nat, bits: nat) {
    if cap == 0 then bits == 0 else bits >= MIN_CAP_BITS && cap == Pow2(bits)
  }

  /** A map of `n` entries has grown, to 4 buckets or to twice as many, only if one more entry would
      fill more than three quarters of it. */
  predicate GrewOnlyIfCrowded(cap: nat, bits: nat, n: nat, bits': nat) {
    bits' != bits ==> 4 * (n + 1) > 3 * cap && bits' == if cap == 0 then 2 else bits + 1
  }

  lemma {:induction false} CapFollows(cap: nat, bits: nat, n: nat, cap': nat, bits': nat)
    requires CapOk(cap, bits) && CapOk(cap', bits') && GrewOnlyIfCrowded(cap, bits, n, bits')
    ensures cap' == if bits' == bits then cap else if cap == 0 then 4 else 2 * cap
  {
    assert Pow2(2) == 4;
  }

  /** The capacity is in proportion to a bound on the size so far. */
  predicate BoundedBy(cap: nat, sz: nat, n: nat) {
    sz <= n && (cap <= 4 || 3 * cap < 8 * (n + 1))
  }

  lemma {:induction false} StaysBounded(cap: nat, bits: nat, sz: nat, cap': nat, bits': nat, sz': nat, n: nat, n': nat)
    requires CapOk(cap, bits) && CapOk(cap', bits') && GrewOnlyIfCrowded(cap, bits, sz, bits')
    requires BoundedBy(cap, sz, n) && sz' <= n' && n <= n'
    ensures BoundedBy(cap', sz', n')
  {
    CapFollows(cap, bits, sz, cap', bits');
  }

  lemma {:induction false} BelowMaximum(cap: nat, bits: nat, sz: nat, n: nat)
    requires CapOk(cap, bits) && BoundedBy(cap, sz, n) && n < MAX_ENTRIES
    ensures bits < MAX_CAP_BITS
  {
    Pow2Of64();
    Pow2Split(64, 60);
    assert Pow2(4) == 16;
    if bits >= MAX_CAP_BITS { Pow2Mono(MAX_CAP_BITS, bits); }
  }

  /** Fresh, or grown only when it had to. */
  predicate GrownTo(cap: nat, bits: nat, n: nat) {
    CapOk(cap, bits) && if n == 0 then cap == 0 else cap > 0 && FitsBits(n, bits)
  }

  lemma {:induction false} GrownBounded(cap: nat, bits: nat, n: nat)
    requires GrownTo(cap, bits, n)
    ensures BoundedBy(cap, n, n)
  {
    if n > 0 {
      MultipleOfFour(bits);
      if bits > 2 { assert Pow2(bits - 2) == 2 * Pow2(bits - 3); }
    }
  }

  lemma {:induction false} GrowthFits(cap: nat, bits: nat, n: nat, cap': nat, bits': nat)
    requires GrownTo(cap, bits, n) && CapOk(cap', bits') && GrewOnlyIfCrowded(cap, bits, n, bits')
    requires 4 * (n + 1) <= 3 * cap'
    ensures GrownTo(cap', bits', n + 1)
  {
    MultipleOfFour(bits');
    if cap > 0 { MultipleOfFour(bits); }
    assert Pow2(0) == 1;
  }

  class Hashmap<K(!new), V(!new)> {
    const hashFn: K -> u64
    const equalFn: (K, K) -> bool
    var buckets: seq<seq<Entry<K, V>>>
    var cap: nat
    var capBits: nat
    var sz: nat

    /** What the caller promises of its callbacks: equal keys form classes and hash equally. */
    ghost predicate KeysOk() {
      && Equivalence(equalFn)
      && forall a, b {:trigger equalFn(a, b)} :: equalFn(a, b) ==> hashFn(a) == hashFn(b)
    }

    /** The bucket of each key when there are 2^bits buckets. */
    function Place(bits: nat): K -> nat
      requires bits <= 64
    {
      k => HashBits(hashFn(k), bits)
    }

    /** The capacity is 0 or a power of two of at least 4, every entry is in its bucket, `sz`
        counts the entries and at most three quarters of the capacity is used. */
    ghost predicate Valid()
      reads this
    {
      && KeysOk()
      && cap == |buckets|
      && (if cap == 0 then capBits == 0 else MIN_CAP_BITS <= capBits <= MAX_CAP_BITS && cap == Pow2(capBits))
      && Placed(buckets, Place(capBits))
      && sz == |Flat(buckets)|
      && 4 * sz <= 3 * cap
    }

    /** The values stored under keys equal to `k`. */
    ghost function Values(k: K): multiset<V>
      reads this
    {
      ValuesIn(Flat(buckets), equalFn, k)
    }

    /** The same values in the order of the chain. */
    ghost function Order(k: K): seq<V>
      requires capBits <= 64
      reads this
    {
      OrderOf(buckets, Place(capBits), equalFn, k)
    }

    /** `v` is stored under a key equal to `k`. */
    ghost predicate Holds(k: K, v: V)
      reads this
    {
      v in Values(k)
    }

    /** No key occurs twice: the map is used without APPEND. */
    ghost predicate Unique()
      reads this
    {
      UniqueKeys(Flat(buckets), equalFn)
    }

    lemma PlaceInRange(bits: nat)
      requires bits <= 64
      ensures forall k :: Place(bits)(k) < Pow2(bits)
    {
      forall k ensures Place(bits)(k) < Pow2(bits) { HashBitsInRange(hashFn(k), bits); }
    }

    lemma BucketOf(k: K)
      requires Valid()
      ensures Place(capBits)(k) < Pow2(capBits)
      ensures Values(k) == if cap == 0 then multiset{} else ValuesIn(buckets[Place(capBits)(k)], equalFn, k)
    {
      HashBitsInRange(hashFn(k), capBits);
      var h := Place(capBits)(k);
      forall i, j | 0 <= i < |buckets| && i != h && 0 <= j < |buckets[i]|
        ensures !equalFn(buckets[i][j].key, k)
      {
        assert Place(capBits)(buckets[i][j].key) == i;
      }
      ValuesInOneBucket(buckets, h, equalFn, k);
    }

    constructor (hashFn: K -> u64, equalFn: (K, K) -> bool)
      requires Equivalence(equalFn) && forall a, b {:trigger equalFn(a, b)} :: equalFn(a, b) ==> hashFn(a) == hashFn(b)
      ensures Valid() && sz == 0 && cap == 0
      ensures this.hashFn == hashFn && this.equalFn == equalFn
      ensures Unique() && forall k :: Values(k) == multiset{}
    {
      this.hashFn, this.equalFn := hashFn, equalFn;
      buckets, cap, capBits, sz := [], 0, 0, 0;
    }

    /** `hashmap_needs_to_grow`. */
    predicate NeedsToGrow()
      reads this
    {
      cap == 0 || (sz + 1) * 4 / 3 > cap
    }

    /** Adding an entry fails: the entry, or the bucket array it needs to grow into, is refused. */
    predicate NoMemory(bucketsGranted: bool, entryGranted: bool)
      reads this
    {
      !entryGranted || (NeedsToGrow() && (!bucketsGranted || capBits >= MAX_CAP_BITS))
    }

    /** The number of bucket bits after room has been made for one more entry. */
    function NextBits(bucketsGranted: bool): nat
      reads this
    {
      if !NeedsToGrow() || !bucketsGranted || capBits >= MAX_CAP_BITS then capBits
      else if cap == 0 then MIN_CAP_BITS else capBits + 1
    }

    /** The map grows exactly when one more entry would fill more than three quarters of it. */
    lemma {:induction false} RoomLeft()
      requires Valid()
      ensures NeedsToGrow() <==> 4 * (sz + 1) > 3 * cap
    {
      if cap > 0 {
        MultipleOfFour(capBits);
        ThreeQuarters(sz + 1, Pow2(capBits - 2), (sz + 1) * 4 / 3);
      }
    }

    /** `hashmap_grow`. */
    method Grow(granted: bool) returns (err: int)
      requires Valid()
      modifies this
      ensures Valid()
      ensures err == if granted && old(capBits) < MAX_CAP_BITS then OK else ENOMEM
      ensures err == ENOMEM ==> buckets == old(buckets)
      ensures err == OK ==> cap == (if old(cap) == 0 then 4 else 2 * old(cap))
      ensures multiset(Flat(buckets)) == multiset(Flat(old(buckets))) && sz == old(sz)
      ensures capBits == if err == OK then (if old(cap) == 0 then 2 else old(capBits) + 1) else old(capBits)
      ensures err == OK ==> forall k :: Order(k) == Reversed(old(Order(k)))
    {
      assert Pow2(2) == 4;
      var newBits := capBits + 1;
      if newBits < MIN_CAP_BITS { newBits := MIN_CAP_BITS; }
      if !granted || newBits > MAX_CAP_BITS { return ENOMEM; }
      var newCap := Pow2(newBits);
      assert newCap == if cap == 0 then 4 else 2 * cap;
      PlaceInRange(newBits);
      var grown := RehashAll(buckets, Place(newBits), newCap, Place(capBits), equalFn);
      OrderFlipped(buckets, Place(capBits), grown, Place(newBits), equalFn);
      buckets, cap, capBits := grown, newCap, newBits;
      return OK;
    }

    /** `hashmap_find_entry`: the position of the first entry of the chain whose key equals `key`. */
    method FindEntry(key: K, hash: nat) returns (pos: Option<nat>)
      requires Valid() && (cap > 0 ==> hash == Place(capBits)(key))
      ensures cap > 0 ==> hash < cap
      ensures pos.None? <==> Values(key) == multiset{}
      ensures pos.Some? ==> cap > 0 && pos.value < |buckets[hash]| && equalFn(buckets[hash][pos.value].key, key)
      ensures pos.Some? ==> forall j :: 0 <= j < pos.value ==> !equalFn(buckets[hash][j].key, key)
      ensures pos.Some? ==> buckets[hash][pos.value].value in Values(key)
      ensures pos.Some? ==> Order(key) != [] && Order(key)[0] == buckets[hash][pos.value].value
      ensures pos.None? ==> Order(key) == []
    {
      BucketOf(key);
      if cap == 0 { return None; }
      var chain := buckets[hash];
      var i := 0;
      while i < |chain|
        invariant i <= |chain| && forall j :: 0 <= j < i ==> !equalFn(chain[j].key, key)
      {
        if equalFn(chain[i].key, key) {
          ValuesInDrop(chain, i, equalFn, key);
          OrderFirst(chain, i, |chain|, equalFn, key);
          return Some(i);
        }
        i := i + 1;
      }
      ValuesUpToNone(chain, |chain|, equalFn, key);
      OrderNone(chain, |chain|, equalFn, key);
      return None;
    }

    /** Grows the map if it needs to. */
    method MakeRoom(bucketsGranted: bool) returns (err: int)
      requires Valid()
      modifies this
      ensures Valid() && sz == old(sz) && multiset(Flat(buckets)) == multiset(Flat(old(buckets)))
      ensures err == if old(NoMemory(bucketsGranted, true)) then ENOMEM else OK
      ensures err == OK ==> 4 * (sz + 1) <= 3 * cap
      ensures capBits == old(NextBits(bucketsGranted))
      ensures GrewOnlyIfCrowded(old(cap), old(capBits), old(sz), capBits)
      ensures forall k :: Order(k) == if capBits == old(capBits) then old(Order(k)) else Reversed(old(Order(k)))
    {
      RoomLeft();
      if NeedsToGrow() {
        err := Grow(bucketsGranted);
      } else {
        err := OK;
      }
    }

    /** Adds an entry at the head of its chain. */
    method PushEntry(e: Entry<K, V>)
      requires Valid() && 4 * (sz + 1) <= 3 * cap
      modifies this`buckets, this`sz
      ensures Valid() && sz == old(sz) + 1 && multiset(Flat(buckets)) == multiset(Flat(old(buckets))) + multiset{e}
      ensures forall k :: Order(k) == Own(e, equalFn, k) + old(Order(k))
    {
      PlaceInRange(capBits);
      var place := Place(capBits);
      PushFrontKeeps(buckets, place, e);
      forall k ensures OrderOf(PushFront(buckets, place, e), place, equalFn, k) == Own(e, equalFn, k) + Order(k) {
        PushFrontOrder(buckets, place, e, equalFn, k);
      }
      buckets := PushFront(buckets, place, e);
      sz := sz + 1;
    }

    /** Adds a fresh entry, growing first when needed (the tail of `hashmap__insert`). */
    method InsertNew(key: K, value: V, bucketsGranted: bool, entryGranted: bool) returns (err: int)
      requires Valid()
      modifies this
      ensures Valid()
      ensures err == if old(NoMemory(bucketsGranted, entryGranted)) then ENOMEM else OK
      ensures sz == old(sz) + (if err == OK then 1 else 0)
      ensures multiset(Flat(buckets))
              == multiset(Flat(old(buckets))) + (if err == OK then multiset{Entry(key, value)} else multiset{})
      ensures capBits == old(NextBits(bucketsGranted))
      ensures GrewOnlyIfCrowded(old(cap), old(capBits), old(sz), capBits)
      ensures forall k :: Order(k) ==
                AfterAppend(old(Order(k)), capBits != old(capBits), err == OK, Entry(key, value), equalFn, k)
    {
      err := MakeRoom(bucketsGranted);
      if err != OK { return; }
      if !entryGranted { return ENOMEM; }
      PushEntry(Entry(key, value));
    }

    /** Overwrites key and value of a found entry. */
    method Overwrite(h: nat, i: nat, key: K, value: V)
      requires Valid() && h < |buckets| && i < |buckets[h]| && equalFn(buckets[h][i].key, key)
      modifies this
      ensures Valid() && sz == old(sz) && capBits == old(capBits)
      ensures multiset(Flat(buckets)) + multiset{old(buckets)[h][i]}
              == multiset(Flat(old(buckets))) + multiset{Entry(key, value)}
    {
      var was, now := buckets[h][i], Entry(key, value);
      ghost var place := Place(capBits);
      assert place(was.key) == h;
      ReplaceAtContents(buckets, h, i, [now]);
      ReplaceAtPlaced(buckets, place, h, i, [now]);
      buckets := ReplaceAt(buckets, h, i, [now]);
    }

    /** The part of `hashmap__insert` for a key that is present. */
    method InsertFound(h: nat, i: nat, key: K, value: V, strategy: Strategy)
      returns (err: int, prior: Option<Entry<K, V>>)
      requires Valid() && strategy != Append
      requires h < |buckets| && i < |buckets[h]| && equalFn(buckets[h][i].key, key)
      requires buckets[h][i].value in Values(key)
      modifies this
      ensures Valid() && sz == old(sz) && capBits == old(capBits) && err != ENOMEM
      ensures Inserted(Flat(old(buckets)), Flat(buckets), equalFn, Entry(key, value), strategy, err, prior)
      ensures old(Unique()) ==> Unique()
    {
      ghost var s := Flat(buckets);
      prior := Some(buckets[h][i]);
      if strategy == Set || strategy == Update {
        Overwrite(h, i, key, value);
        InsertedKeepsUnique(s, Flat(buckets), equalFn, Entry(key, value), strategy, OK, prior);
        return OK, prior;
      }
      return EEXIST, prior;
    }

    /** `hashmap__insert`; `prior` is the pair handed back through `old_key` and `old_value`. The two
        flags say whether the allocator grants a bucket array and an entry. */
    method Insert(key: K, value: V, strategy: Strategy, bucketsGranted: bool, entryGranted: bool)
        returns (err: int, prior: Option<Entry<K, V>>)
      requires Valid()
      modifies this
      ensures Valid()
      ensures err == ENOMEM ==> old(NoMemory(bucketsGranted, entryGranted))
      ensures err == OK && sz > old(sz) ==> !old(NoMemory(bucketsGranted, entryGranted))
      ensures Inserted(Flat(old(buckets)), Flat(buckets), equalFn, Entry(key, value), strategy, err, prior)
      ensures old(Unique()) && strategy != Append ==> Unique()
      ensures GrewOnlyIfCrowded(old(cap), old(capBits), old(sz), capBits)
      ensures old(sz) <= sz <= old(sz) + 1
      ensures strategy == Append ==> capBits == old(NextBits(bucketsGranted))
      ensures strategy == Append ==>
                err == if old(NoMemory(bucketsGranted, entryGranted)) then ENOMEM else OK
      ensures strategy == Append ==> sz == old(sz) + if err == OK then 1 else 0
      ensures strategy == Append ==>
                forall k :: Order(k) ==
                  AfterAppend(old(Order(k)), capBits != old(capBits), err == OK, Entry(key, value), equalFn, k)
    {
      prior := None;
      ghost var s := Flat(buckets);
      var h := Place(capBits)(key);
      if strategy != Append {
        var pos := FindEntry(key, h);
        if pos.Some? {
          err, prior := InsertFound(h, pos.value, key, value, strategy);
          return;
        }
      }
      if strategy == Update { return ENOENT, prior; }
      err := InsertNew(key, value, bucketsGranted, entryGranted);
      if strategy != Append {
        InsertedKeepsUnique(s, Flat(buckets), equalFn, Entry(key, value), strategy, err, prior);
      }
    }

    /** `hashmap__insert` with memory for everything, or with any allocation failing. */
    method InsertAny(key: K, value: V, strategy: Strategy, memory: bool) returns (err: int, prior: Option<Entry<K, V>>)
      requires Valid()
      modifies this
      ensures Valid()
      ensures Inserted(Flat(old(buckets)), Flat(buckets), equalFn, Entry(key, value), strategy, err, prior)
      ensures old(Unique()) && strategy != Append ==> Unique()
      ensures GrewOnlyIfCrowded(old(cap), old(capBits), old(sz), capBits) && old(sz) <= sz <= old(sz) + 1
      ensures memory && old(capBits) < MAX_CAP_BITS ==> err != ENOMEM
    {
      var bucketsGranted, entryGranted := true, true;
      if !memory { bucketsGranted, entryGranted := *, *; }
      err, prior := Insert(key, value, strategy, bucketsGranted, entryGranted);
    }

    /** `hashmap__append`. With `memory` every allocation is granted, otherwise any of them may fail. */
    method AppendEntry(key: K, value: V, memory: bool) returns (err: int)
      requires Valid()
      modifies this
      ensures Valid() && (err == OK || err == ENOMEM)
      ensures GrewOnlyIfCrowded(old(cap), old(capBits), old(sz), capBits)
      ensures sz == old(sz) + if err == OK then 1 else 0
      ensures memory && old(capBits) < MAX_CAP_BITS ==> err == OK
      ensures multiset(Flat(buckets)) == multiset(Flat(old(buckets))) +
                (if err == OK then multiset{Entry(key, value)} else multiset{})
      ensures forall k :: Order(k) ==
                AfterAppend(old(Order(k)), capBits != old(capBits), err == OK, Entry(key, value), equalFn, k)
    {
      var bucketsGranted, entryGranted := true, true;
      if !memory { bucketsGranted, entryGranted := *, *; }
      var prior;
      err, prior := Insert(key, value, Append, bucketsGranted, entryGranted);
    }

    /** `hashmap__append`, for callers that only ask which values a key has. */
    method AppendValue(key: K, value: V, memory: bool) returns (err: int)
      requires Valid()
      modifies this
      ensures Valid() && (err == OK || err == ENOMEM)
      ensures sz == old(sz) + if err == OK then 1 else 0
      ensures forall n: nat :: old(BoundedBy(cap, sz, n)) ==> BoundedBy(cap, sz, n + sz - old(sz))
      ensures memory && (exists n: nat :: n < MAX_ENTRIES && old(BoundedBy(cap, sz, n))) ==> err == OK
      ensures forall k, v :: Holds(k, v) <==> old(Holds(k, v)) || (err == OK && equalFn(key, k) && v == value)
    {
      ghost var s, cap0, bits0, sz0 := Flat(buckets), cap, capBits, sz;
      if n: nat :| n < MAX_ENTRIES && BoundedBy(cap, sz, n) { BelowMaximum(cap, capBits, sz, n); }
      err := AppendEntry(key, value, memory);
      forall n: nat | BoundedBy(cap0, sz0, n) ensures BoundedBy(cap, sz, n + sz - sz0) {
        StaysBounded(cap0, bits0, sz0, cap, capBits, sz, n, n + sz - sz0);
      }
      AppendedMembers(s, Flat(buckets), equalFn, Entry(key, value), err == OK);
    }

    /** `hashmap__find`. */
    method Find(key: K) returns (r: Option<V>)
      requires Valid()
      ensures r.None? <==> Values(key) == multiset{}
      ensures r.Some? ==> r.value in Values(key)
      ensures r == if Order(key) == [] then None else Some(Order(key)[0])
    {
      var h := Place(capBits)(key);
      var pos := FindEntry(key, h);
      if pos.None? { return None; }
      return Some(buckets[h][pos.value].value);
    }

    /** `hashmap__delete`; the removed pair is handed back. */
    method Delete(key: K) returns (prior: Option<Entry<K, V>>)
      requires Valid()
      modifies this
      ensures Valid()
      ensures prior.None? <==> old(Values(key)) == multiset{}
      ensures prior.None? ==> buckets == old(buckets)
      ensures cap == old(cap) && sz == old(sz) - (if prior.Some? then 1 else 0)
      ensures prior.Some? ==> forall k :: old(Order(k)) == Own(prior.value, equalFn, k) + Order(k)
      ensures prior.Some? ==> equalFn(prior.value.key, key) && prior.value.value in old(Values(key))
      ensures prior.Some? ==> multiset(Flat(buckets)) + multiset{prior.value} == multiset(Flat(old(buckets)))
      ensures old(Unique()) ==> Unique()
    {
      var h := Place(capBits)(key);
      var pos := FindEntry(key, h);
      if pos.None? { return None; }
      var e := buckets[h][pos.value];
      ghost var s := Flat(buckets);
      RemoveAt(h, pos.value);
      RemovedValues(s, Flat(buckets), equalFn, e);
      return Some(e);
    }

    /** Unlinks and frees a found entry. */
    method RemoveAt(h: nat, i: nat)
      requires Valid() && h < |buckets| && i < |buckets[h]|
      modifies this
      ensures Valid()
      ensures cap == old(cap) && sz == old(sz) - 1
      ensures multiset(Flat(buckets)) + multiset{old(buckets)[h][i]} == multiset(Flat(old(buckets)))
      ensures (forall j :: 0 <= j < i ==> !equalFn(old(buckets)[h][j].key, old(buckets)[h][i].key)) ==>
                forall k :: old(Order(k)) == Own(old(buckets)[h][i], equalFn, k) + Order(k)
    {
      ghost var place := Place(capBits);
      ghost var chain := buckets[h];
      if forall j :: 0 <= j < i ==> !equalFn(chain[j].key, chain[i].key) {
        forall k
          ensures Order(k) == Own(chain[i], equalFn, k) + OrderOf(ReplaceAt(buckets, h, i, []), place, equalFn, k)
        {
          RemovedOrder(buckets, place, h, i, equalFn, k);
        }
      }
      ReplaceAtContents(buckets, h, i, []);
      ReplaceAtPlaced(buckets, place, h, i, []);
      buckets := ReplaceAt(buckets, h, i, []);
      sz := sz - 1;
    }

    /** Iterating a key, for callers that only ask which values it has. */
    method Candidates(key: K) returns (vals: seq<V>)
      requires Valid()
      ensures forall v :: v in vals <==> Holds(key, v)
    {
      vals := KeyEntries(key);
      assert forall v :: v in vals <==> v in multiset(vals);
    }

    /** `hashmap__for_each_key_entry`: the values met when iterating over one key. */
    method KeyEntries(key: K) returns (vals: seq<V>)
      requires Valid()
      ensures vals == Order(key) && multiset(vals) == Values(key)
    {
      vals := [];
      BucketOf(key);
      if cap == 0 { return; }
      vals := ChainValues(buckets[Place(capBits)(key)], equalFn, key);
    }
  }

  /** The values met when walking a chain for one key. */
  method ChainValues<K, V>(chain: seq<Entry<K, V>>, f: (K, K) -> bool, key: K) returns (vals: seq<V>)
    ensures vals == OrderIn(chain, f, key) && multiset(vals) == ValuesIn(chain, f, key)
  {
    vals := [];
    var i := 0;
    while i < |chain|
      invariant i <= |chain| && vals == OrderUpTo(chain, i, f, key)
    {
      if f(chain[i].key, key) { vals := vals + [chain[i].value]; }
      i := i + 1;
    }
    OrderHasValues(chain, |chain|, f, key);
  }
}
