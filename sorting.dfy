/** Order-preserving subsequences and the stable sort that
    `Array.prototype.sort` performs when its comparator is the difference of
    two integer keys. */
module Sorting {

  /** `r` is obtained from `s` by deleting elements, keeping the rest in order. */
  predicate SubsequenceOf<T(==)>(r: seq<T>, s: seq<T>)
    decreases |s|
  {
    if r == [] then true
    else if s == [] then false
    else if r[0] == s[0] then SubsequenceOf(r[1..], s[1..])
    else SubsequenceOf(r, s[1..])
  }

  lemma {:induction false} SubsequenceDropFirst<T>(r: seq<T>, s: seq<T>)
    requires r != [] && SubsequenceOf(r, s)
    ensures SubsequenceOf(r[1..], s)
    decreases |s|, 1
  {
    if r[0] == s[0] {
      SubsequenceExtend(r[1..], s);
    } else {
      SubsequenceDropFirst(r, s[1..]);
      SubsequenceExtend(r[1..], s);
    }
  }

  lemma {:induction false} SubsequenceExtend<T>(r: seq<T>, s: seq<T>)
    requires s != [] && SubsequenceOf(r, s[1..])
    ensures SubsequenceOf(r, s)
    decreases |s|, 0
  {
    if r != [] && r[0] == s[0] {
      SubsequenceDropFirst(r, s[1..]);
    }
  }

  /** A subsequence of a subsequence is a subsequence. */
  lemma {:induction false} SubsequenceTrans<T>(a: seq<T>, b: seq<T>, c: seq<T>)
    requires SubsequenceOf(a, b) && SubsequenceOf(b, c)
    ensures SubsequenceOf(a, c)
    decreases |c|
  {
    if a != [] {
      if b[0] == c[0] {
        if a[0] == b[0] {
          SubsequenceTrans(a[1..], b[1..], c[1..]);
        } else {
          SubsequenceTrans(a, b[1..], c[1..]);
        }
      } else {
        SubsequenceTrans(a, b, c[1..]);
        if a[0] == c[0] {
          SubsequenceDropFirst(a, c[1..]);
        }
      }
    }
  }

  /** Keys never decrease from left to right. */
  predicate SortedBy<T>(s: seq<T>, key: T -> int) {
    forall i, j :: 0 <= i < j < |s| ==> key(s[i]) <= key(s[j])
  }

  /** The elements of `s` whose key is `k`, in their order in `s`. */
  function WithKey<T>(s: seq<T>, key: T -> int, k: int): seq<T> {
    if s == [] then []
    else (if key(s[0]) == k then [s[0]] else []) + WithKey(s[1..], key, k)
  }

  /** Places `x` into `s` just after the last element whose key is not
      larger than `x`'s, so that equal keys keep their arrival order. */
  function Insert<T>(s: seq<T>, x: T, key: T -> int): (r: seq<T>)
    ensures |r| == |s| + 1
    decreases |s|
  {
    if s == [] || key(s[|s| - 1]) <= key(x) then s + [x]
    else Insert(s[..|s| - 1], x, key) + [s[|s| - 1]]
  }

  /** Stable sort by ascending key: insertion of each element in turn. */
  function SortBy<T>(s: seq<T>, key: T -> int): (r: seq<T>)
    ensures |r| == |s|
    decreases |s|
  {
    if s == [] then []
    else Insert(SortBy(s[..|s| - 1], key), s[|s| - 1], key)
  }

  lemma {:induction false} InsertPermutes<T>(s: seq<T>, x: T, key: T -> int)
    ensures multiset(Insert(s, x, key)) == multiset(s) + multiset{x}
    decreases |s|
  {
    if !(s == [] || key(s[|s| - 1]) <= key(x)) {
      assert s == s[..|s| - 1] + [s[|s| - 1]];
      InsertPermutes(s[..|s| - 1], x, key);
    }
  }

  /** The sort's output is a permutation of its input. */
  lemma {:induction false} SortByPermutes<T>(s: seq<T>, key: T -> int)
    ensures multiset(SortBy(s, key)) == multiset(s)
    decreases |s|
  {
    if s != [] {
      assert s == s[..|s| - 1] + [s[|s| - 1]];
      SortByPermutes(s[..|s| - 1], key);
      InsertPermutes(SortBy(s[..|s| - 1], key), s[|s| - 1], key);
    }
  }

  lemma {:induction false} InsertSorted<T>(s: seq<T>, x: T, key: T -> int)
    requires SortedBy(s, key)
    ensures SortedBy(Insert(s, x, key), key)
    decreases |s|
  {
    if s == [] || key(s[|s| - 1]) <= key(x) {
    } else {
      var init, last := s[..|s| - 1], s[|s| - 1];
      InsertSorted(init, x, key);
      InsertPermutes(init, x, key);
      var r := Insert(init, x, key);
      forall i | 0 <= i < |r| ensures key(r[i]) <= key(last) {
        assert r[i] in multiset(r);
        if r[i] != x {
          assert r[i] in multiset(init);
          var k :| 0 <= k < |init| && init[k] == r[i];
          assert s[k] == r[i];
        }
      }
    }
  }

  /** The sort's output is ordered by key. */
  lemma {:induction false} SortBySorted<T>(s: seq<T>, key: T -> int)
    ensures SortedBy(SortBy(s, key), key)
    decreases |s|
  {
    if s != [] {
      SortBySorted(s[..|s| - 1], key);
      InsertSorted(SortBy(s[..|s| - 1], key), s[|s| - 1], key);
    }
  }

  lemma {:induction false} WithKeyAppend<T>(a: seq<T>, b: seq<T>, key: T -> int, k: int)
    ensures WithKey(a + b, key, k) == WithKey(a, key, k) + WithKey(b, key, k)
    decreases |a|
  {
    if a == [] {
      assert a + b == b;
    } else {
      var ab, head := a + b, if key(a[0]) == k then [a[0]] else [];
      assert ab[0] == a[0] && ab[1..] == a[1..] + b;
      WithKeyAppend(a[1..], b, key, k);
      assert WithKey(ab, key, k) == head + (WithKey(a[1..], key, k) + WithKey(b, key, k));
      assert WithKey(a, key, k) == head + WithKey(a[1..], key, k);
    }
  }

  lemma {:induction false} InsertWithKey<T>(s: seq<T>, x: T, key: T -> int, k: int)
    ensures WithKey(Insert(s, x, key), key, k) == WithKey(s, key, k) + WithKey([x], key, k)
    decreases |s|
  {
    if s == [] || key(s[|s| - 1]) <= key(x) {
      WithKeyAppend(s, [x], key, k);
    } else {
      var init, last := s[..|s| - 1], s[|s| - 1];
      InsertWithKey(init, x, key, k);
      WithKeyAppend(Insert(init, x, key), [last], key, k);
      WithKeyAppend(init, [last], key, k);
      assert init + [last] == s;
      // x and last have different keys, so at most one of them has key k
      assert WithKey([x], key, k) == [] || WithKey([last], key, k) == [];
    }
  }

  /** The sort is stable: for every key, the elements carrying that key come
      out in the order they went in. */
  lemma {:induction false} SortByStable<T>(s: seq<T>, key: T -> int, k: int)
    ensures WithKey(SortBy(s, key), key, k) == WithKey(s, key, k)
    decreases |s|
  {
    if s != [] {
      var init, last := s[..|s| - 1], s[|s| - 1];
      SortByStable(init, key, k);
      InsertWithKey(SortBy(init, key), last, key, k);
      WithKeyAppend(init, [last], key, k);
      assert init + [last] == s;
    }
  }

  /** When every key is equal the sort changes nothing: a comparator that
      always answers 0 leaves the order as it was. */
  lemma {:induction false} SortByConstant<T>(s: seq<T>, key: T -> int, c: int)
    requires forall i :: 0 <= i < |s| ==> key(s[i]) == c
    ensures SortBy(s, key) == s
    decreases |s|
  {
    if s != [] {
      var init, last := s[..|s| - 1], s[|s| - 1];
      assert forall i :: 0 <= i < |init| ==> init[i] == s[i];
      SortByConstant(init, key, c);
      assert SortBy(s, key) == Insert(init, last, key);
      assert init == [] || key(init[|init| - 1]) == c == key(last);
      assert Insert(init, last, key) == init + [last];
      assert init + [last] == s;
    }
  }

  /** One step of the shift: copying position `j - 1` into `j` keeps the
      picture `sorted[..j] + [hole] + sorted[j..] + rest` one place further left. */
  lemma ShiftPicture<T>(cur: seq<T>, sorted: seq<T>, rest: seq<T>, j: nat)
    requires 0 < j <= |sorted| < |cur|
    requires cur == sorted[..j] + [cur[j]] + sorted[j..] + rest
    ensures cur[j - 1] == sorted[j - 1]
    ensures cur[j := cur[j - 1]] == sorted[..j - 1] + [cur[j - 1]] + sorted[j - 1..] + rest
  {
    assert cur[j - 1] == sorted[..j][j - 1];
    var next := cur[j := cur[j - 1]];
    var pic := sorted[..j - 1] + [cur[j - 1]] + sorted[j - 1..] + rest;
    assert |next| == |pic|;
    forall k | 0 <= k < |next| ensures next[k] == pic[k] {
      if k < j - 1 {
      } else if k == j - 1 || k == j {
      } else if k <= |sorted| {
        assert next[k] == sorted[j..][k - j - 1];
      }
    }
  }

  /** `x` belongs in front of `sorted[j - 1]` when that key is larger. */
  lemma InsertPast<T>(sorted: seq<T>, x: T, key: T -> int, j: nat)
    requires 0 < j <= |sorted|
    requires key(sorted[j - 1]) > key(x)
    ensures Insert(sorted[..j], x, key) == Insert(sorted[..j - 1], x, key) + [sorted[j - 1]]
  {
    assert sorted[..j][..j - 1] == sorted[..j - 1];
  }

  lemma Regroup<T>(whole: seq<T>, front: seq<T>, sorted: seq<T>, j: nat)
    requires 0 < j <= |sorted|
    requires whole == front + [sorted[j - 1]] + sorted[j..]
    ensures whole == front + sorted[j - 1..]
  {
    assert sorted[j - 1..] == [sorted[j - 1]] + sorted[j..];
  }

  /** Overwriting the element after `p` leaves everything else alone. */
  lemma UpdateBetween<T>(p: seq<T>, y: T, q: seq<T>, r: seq<T>, x: T)
    ensures (p + [y] + q + r)[|p| := x] == p + [x] + q + r
  {
    var next, pic := (p + [y] + q + r)[|p| := x], p + [x] + q + r;
    assert forall k :: 0 <= k < |next| ==> next[k] == pic[k];
  }

  /** Where the shift stops, `x` goes: no key before it is larger. */
  lemma ShiftDone<T>(sorted: seq<T>, x: T, key: T -> int, j: nat)
    requires j <= |sorted|
    requires j == 0 || key(sorted[j - 1]) <= key(x)
    requires Insert(sorted, x, key) == Insert(sorted[..j], x, key) + sorted[j..]
    ensures Insert(sorted, x, key) == sorted[..j] + [x] + sorted[j..]
  {
    if j > 0 {
      assert sorted[..j][j - 1] == sorted[j - 1];
    }
  }

  /** Moves `a[i]` left past every larger key, into the place `Insert`
      gives it among `a[..i]`. */
  method InsertInPlace<T>(a: array<T>, i: nat, key: T -> int)
    requires i < a.Length
    modifies a
    ensures a[..] == Insert(old(a[..i]), old(a[i]), key) + old(a[i + 1..])
  {
    ghost var sorted := a[..i];
    ghost var rest := a[i + 1..];
    var x := a[i];
    var j := i;
    assert a[..] == sorted[..j] + [a[j]] + sorted[j..] + rest;
    assert sorted[..j] == sorted && sorted[j..] == [];
    while j > 0 && key(a[j - 1]) > key(x)
      invariant 0 <= j <= i
      invariant a[..] == sorted[..j] + [a[j]] + sorted[j..] + rest
      invariant Insert(sorted, x, key) == Insert(sorted[..j], x, key) + sorted[j..]
    {
      ShiftPicture(a[..], sorted, rest, j);
      InsertPast(sorted, x, key, j);
      Regroup(Insert(sorted, x, key), Insert(sorted[..j - 1], x, key), sorted, j);
      a[j] := a[j - 1];
      j := j - 1;
    }
    assert j > 0 ==> a[j - 1] == sorted[j - 1];
    ShiftDone(sorted, x, key, j);
    UpdateBetween(sorted[..j], a[j], sorted[j..], rest, x);
    a[j] := x;
  }

  /** One round of the outer loop: inserting the next element into the
      sorted front extends the sorted front by one. */
  lemma SortStep<T>(orig: seq<T>, i: nat, key: T -> int, cur: seq<T>)
    requires i < |orig|
    requires cur == SortBy(orig[..i], key) + orig[i..]
    ensures cur[..i] == SortBy(orig[..i], key) && i < |cur|
    ensures Insert(cur[..i], cur[i], key) + cur[i + 1..] == SortBy(orig[..i + 1], key) + orig[i + 1..]
  {
    var front := SortBy(orig[..i], key);
    assert cur[..i] == front;
    assert cur[i] == orig[i];
    assert cur[i + 1..] == orig[i + 1..];
    assert orig[..i + 1][..i] == orig[..i];
  }

  /** Sorts `a` in place; the result is what `SortBy` computes. */
  method SortInPlace<T>(a: array<T>, key: T -> int)
    modifies a
    ensures a[..] == SortBy(old(a[..]), key)
  {
    ghost var orig := a[..];
    var i := 0;
    while i < a.Length
      invariant 0 <= i <= a.Length
      invariant a[..] == SortBy(orig[..i], key) + orig[i..]
    {
      SortStep(orig, i, key, a[..]);
      InsertInPlace(a, i, key);
      i := i + 1;
    }
    assert orig[..a.Length] == orig;
  }
}
