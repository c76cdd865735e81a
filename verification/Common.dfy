/** What several modules share: optional results, error codes and rearranged sequences. */
module Common {

  datatype Option<T> = None | Some(value: T)

  const OK: int := 0
  const ENOENT: int := -2
  const ENOMEM: int := -12
  const EEXIST: int := -17
  const EINVAL: int := -22
  const ELOOP: int := -40

  lemma MultisetDrop<T>(s: seq<T>, i: nat)
    requires i < |s|
    ensures multiset(s[..i] + s[i + 1..]) == multiset(s) - multiset{s[i]}
  {
    assert s == s[..i] + [s[i]] + s[i + 1..];
    assert multiset(s) == multiset(s[..i]) + multiset{s[i]} + multiset(s[i + 1..]);
  }

  /** The last element of a sequence occurs in any rearrangement, which without it rearranges the rest. */
  lemma SharedElement<T>(s: seq<T>, t: seq<T>, n: nat) returns (i: nat)
    requires multiset(s) == multiset(t) && n + 1 == |s|
    ensures i < |t| && t[i] == s[n]
    ensures multiset(t[..i] + t[i + 1..]) == multiset(s[..n])
  {
    assert s[n] in multiset(t);
    i :| 0 <= i < |t| && t[i] == s[n];
    MultisetDrop(t, i);
    MultisetDrop(s, n);
    assert s[..n] + s[n + 1..] == s[..n];
  }

  /** The sum of the sizes of the first `n` elements. */
  ghost function Total<T>(size: T -> nat, s: seq<T>, n: nat): nat
    requires n <= |s|
  {
    if n == 0 then 0 else Total(size, s, n - 1) + size(s[n - 1])
  }

  lemma {:induction false} TotalEqual<T>(size: T -> nat, s: seq<T>, t: seq<T>, n: nat)
    requires n <= |s| && n <= |t| && forall i :: 0 <= i < n ==> size(s[i]) == size(t[i])
    ensures Total(size, s, n) == Total(size, t, n)
  {
    if n > 0 { TotalEqual(size, s, t, n - 1); }
  }

  lemma {:induction false} TotalPush<T>(size: T -> nat, s: seq<T>, x: T)
    ensures Total(size, s + [x], |s| + 1) == Total(size, s, |s|) + size(x)
  {
    TotalEqual(size, s + [x], s, |s|);
  }

  lemma {:induction false} TotalAfter<T>(size: T -> nat, a: seq<T>, b: seq<T>, n: nat)
    requires n <= |b|
    ensures Total(size, a + b, |a| + n) == Total(size, a, |a|) + Total(size, b, n)
    decreases n
  {
    if n == 0 {
      TotalEqual(size, a + b, a, |a|);
    } else {
      TotalAfter(size, a, b, n - 1);
      assert (a + b)[|a| + n - 1] == b[n - 1];
    }
  }

  lemma {:induction false} TotalDrop<T>(size: T -> nat, s: seq<T>, i: nat)
    requires i < |s|
    ensures var t := s[..i] + s[i + 1..];
            Total(size, s, |s|) == Total(size, t, |t|) + size(s[i])
  {
    var a, b := s[..i], s[i + 1..];
    TotalAfter(size, a, b, |b|);
    TotalAfter(size, a + [s[i]], b, |b|);
    TotalAfter(size, a, [s[i]], 1);
    assert Total(size, [s[i]], 1) == Total(size, [s[i]], 0) + size(s[i]);
    assert s == a + [s[i]] + b;
  }

  /** Rearranging a sequence does not change its total size. */
  lemma {:induction false} TotalPermuted<T>(size: T -> nat, s: seq<T>, t: seq<T>)
    requires multiset(s) == multiset(t)
    ensures |s| == |t| && Total(size, s, |s|) == Total(size, t, |t|)
    decreases |s|
  {
    assert |multiset(s)| == |s| && |multiset(t)| == |t|;
    if s != [] {
      var n := |s| - 1;
      var i := SharedElement(s, t, n);
      TotalPermuted(size, s[..n], t[..i] + t[i + 1..]);
      TotalDrop(size, t, i);
      TotalEqual(size, s, s[..n], n);
    }
  }

  lemma {:induction false} TotalMonotone<T>(size: T -> nat, s: seq<T>, m: nat, n: nat)
    requires m <= n <= |s|
    ensures Total(size, s, m) <= Total(size, s, n)
    decreases n
  {
    if m < n { TotalMonotone(size, s, m, n - 1); }
  }
}
