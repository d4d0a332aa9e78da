/** Values and sequence operations shared by the client modules: an optional
    value (JavaScript `null`/`undefined` versus a present value), distinct
    sequences, and the stable sort that `Array.prototype.sort` performs with
    a numeric comparator `(a, b) => key(a) - key(b)`. */
module Common {

  datatype Option<T> = None | Some(value: T)

  predicate Distinct<T(==)>(s: seq<T>) {
    forall i, j :: 0 <= i < j < |s| ==> s[i] != s[j]
  }

  /** The indices `0, 1, ..., n - 1` in order. */
  function Range(n: nat): (r: seq<nat>)
    ensures |r| == n
    ensures forall i :: 0 <= i < n ==> r[i] == i
  {
    if n == 0 then [] else Range(n - 1) + [n - 1]
  }

  lemma RangeDistinct(n: nat)
    ensures Distinct(Range(n))
  {
  }

  predicate SortedBy<T>(s: seq<T>, key: T -> real) {
    forall i, j :: 0 <= i < j < |s| ==> key(s[i]) <= key(s[j])
  }

  /** The elements of `s` whose key is `k`, in order. */
  function WithKey<T>(s: seq<T>, key: T -> real, k: real): seq<T> {
    if s == [] then [] else Keep(s[0], key, k) + WithKey(s[1..], key, k)
  }

  function Keep<T>(x: T, key: T -> real, k: real): seq<T> {
    if key(x) == k then [x] else []
  }

  /** `x` goes after every element whose key is not greater than its own. */
  function Insert<T>(x: T, s: seq<T>, key: T -> real): seq<T> {
    if s == [] then [x]
    else if key(x) < key(s[0]) then [x] + s
    else [s[0]] + Insert(x, s[1..], key)
  }

  /** Insertion sort, taking the elements from the left: stable and
      ascending by `key`. */
  function Sort<T>(s: seq<T>, key: T -> real): seq<T> {
    if s == [] then []
    else Insert(s[|s| - 1], Sort(s[..|s| - 1], key), key)
  }

  lemma {:induction false} InsertPermutes<T>(x: T, s: seq<T>, key: T -> real)
    ensures multiset(Insert(x, s, key)) == multiset(s) + multiset{x}
  {
    if s != [] && key(s[0]) <= key(x) {
      InsertPermutes(x, s[1..], key);
      assert s == [s[0]] + s[1..];
    }
  }

  lemma {:induction false} InsertSorted<T>(x: T, s: seq<T>, key: T -> real)
    requires SortedBy(s, key)
    ensures SortedBy(Insert(x, s, key), key)
  {
    if s != [] && key(s[0]) <= key(x) {
      InsertSorted(x, s[1..], key);
      InsertPermutes(x, s[1..], key);
      var r := Insert(x, s[1..], key);
      forall y | y in r
        ensures key(s[0]) <= key(y)
      {
        assert y in multiset(r);
      }
    }
  }

  /** The sort only reorders its input. */
  lemma {:induction false} SortPermutes<T>(s: seq<T>, key: T -> real)
    ensures multiset(Sort(s, key)) == multiset(s)
  {
    if s != [] {
      SortPermutes(s[..|s| - 1], key);
      InsertPermutes(s[|s| - 1], Sort(s[..|s| - 1], key), key);
      assert s == s[..|s| - 1] + [s[|s| - 1]];
    }
  }

  /** The sort's result is ascending by `key`. */
  lemma {:induction false} SortSorted<T>(s: seq<T>, key: T -> real)
    ensures SortedBy(Sort(s, key), key)
  {
    if s != [] {
      SortSorted(s[..|s| - 1], key);
      InsertSorted(s[|s| - 1], Sort(s[..|s| - 1], key), key);
    }
  }

  lemma {:induction false} InsertAtEnd<T>(x: T, s: seq<T>, key: T -> real)
    requires forall i :: 0 <= i < |s| ==> key(s[i]) <= key(x)
    ensures Insert(x, s, key) == s + [x]
  {
    if s != [] {
      InsertAtEnd(x, s[1..], key);
    }
  }

  /** A sequence that is already in order is left as it is. */
  lemma {:induction false} SortKeepsSorted<T>(s: seq<T>, key: T -> real)
    requires SortedBy(s, key)
    ensures Sort(s, key) == s
  {
    if s != [] {
      var p := s[..|s| - 1];
      SortKeepsSorted(p, key);
      InsertAtEnd(s[|s| - 1], p, key);
      assert p + [s[|s| - 1]] == s;
    }
  }

  lemma WithKeyCons<T>(x: T, r: seq<T>, key: T -> real, k: real)
    ensures WithKey([x] + r, key, k) == Keep(x, key, k) + WithKey(r, key, k)
  {
    assert ([x] + r)[0] == x && ([x] + r)[1..] == r;
  }

  lemma {:induction false} WithKeyAppend<T>(a: seq<T>, b: seq<T>, key: T -> real, k: real)
    ensures WithKey(a + b, key, k) == WithKey(a, key, k) + WithKey(b, key, k)
  {
    if a == [] {
      assert a + b == b;
    } else {
      calc {
        WithKey(a + b, key, k);
        { assert a + b == [a[0]] + (a[1..] + b); }
        WithKey([a[0]] + (a[1..] + b), key, k);
        { WithKeyCons(a[0], a[1..] + b, key, k); }
        Keep(a[0], key, k) + WithKey(a[1..] + b, key, k);
        { WithKeyAppend(a[1..], b, key, k); }
        Keep(a[0], key, k) + (WithKey(a[1..], key, k) + WithKey(b, key, k));
        WithKey(a, key, k) + WithKey(b, key, k);
      }
    }
  }

  lemma {:induction false} WithKeyNone<T>(s: seq<T>, key: T -> real, k: real)
    requires forall i :: 0 <= i < |s| ==> k < key(s[i])
    ensures WithKey(s, key, k) == []
  {
    if s != [] {
      WithKeyNone(s[1..], key, k);
    }
  }

  lemma {:induction false} InsertWithKey<T>(x: T, s: seq<T>, key: T -> real, k: real)
    requires SortedBy(s, key)
    ensures WithKey(Insert(x, s, key), key, k) == WithKey(s, key, k) + Keep(x, key, k)
  {
    if s == [] {
      WithKeySingle(x, key, k);
    } else if key(x) < key(s[0]) {
      WithKeyFront(x, s, key, k);
    } else {
      calc {
        WithKey(Insert(x, s, key), key, k);
        WithKey([s[0]] + Insert(x, s[1..], key), key, k);
        { WithKeyCons(s[0], Insert(x, s[1..], key), key, k); }
        Keep(s[0], key, k) + WithKey(Insert(x, s[1..], key), key, k);
        { InsertWithKey(x, s[1..], key, k); }
        Keep(s[0], key, k) + (WithKey(s[1..], key, k) + Keep(x, key, k));
        WithKey(s, key, k) + Keep(x, key, k);
      }
    }
  }

  /** `x` goes in front of a sorted sequence whose keys all exceed its own. */
  lemma WithKeyFront<T>(x: T, s: seq<T>, key: T -> real, k: real)
    requires SortedBy(s, key) && s != [] && key(x) < key(s[0])
    ensures WithKey([x] + s, key, k) == WithKey(s, key, k) + Keep(x, key, k)
  {
    if key(x) == k {
      WithKeyNone(s, key, k);
    }
    WithKeyCons(x, s, key, k);
  }

  lemma WithKeySingle<T>(x: T, key: T -> real, k: real)
    ensures WithKey([x], key, k) == Keep(x, key, k)
  {
    assert [x][1..] == [];
  }

  /** Stability: the elements sharing a key keep their relative order. */
  lemma {:induction false} SortStable<T>(s: seq<T>, key: T -> real, k: real)
    ensures WithKey(Sort(s, key), key, k) == WithKey(s, key, k)
  {
    if s != [] {
      var p := s[..|s| - 1];
      var x := s[|s| - 1];
      calc {
        WithKey(Sort(s, key), key, k);
        WithKey(Insert(x, Sort(p, key), key), key, k);
        { SortSorted(p, key); InsertWithKey(x, Sort(p, key), key, k); }
        WithKey(Sort(p, key), key, k) + Keep(x, key, k);
        { SortStable(p, key, k); }
        WithKey(p, key, k) + Keep(x, key, k);
        { WithKeySingle(x, key, k); }
        WithKey(p, key, k) + WithKey([x], key, k);
        { WithKeyAppend(p, [x], key, k); }
        WithKey(p + [x], key, k);
        { assert s == p + [x]; }
        WithKey(s, key, k);
      }
    }
  }

  /** A distinct input gives a distinct result. */
  lemma SortDistinct<T>(s: seq<T>, key: T -> real)
    requires Distinct(s)
    ensures Distinct(Sort(s, key))
  {
    var r := Sort(s, key);
    SortPermutes(s, key);
    forall i, j | 0 <= i < j < |r|
      ensures r[i] != r[j]
    {
      if r[i] == r[j] {
        MultisetAtLeastTwo(r, i, j);
        DistinctCountOne(s, r[i]);
      }
    }
  }

  lemma MultisetAtLeastTwo<T>(s: seq<T>, i: nat, j: nat)
    requires i < j < |s| && s[i] == s[j]
    ensures multiset(s)[s[i]] >= 2
  {
    assert s == s[..i] + [s[i]] + s[i + 1..j] + [s[j]] + s[j + 1..];
  }

  lemma {:induction false} DistinctCountOne<T>(s: seq<T>, x: T)
    requires Distinct(s)
    ensures multiset(s)[x] <= 1
  {
    if s != [] {
      var p := s[..|s| - 1];
      assert s == p + [s[|s| - 1]];
      assert Distinct(p);
      DistinctCountOne(p, x);
      if x == s[|s| - 1] {
        assert x !in p;
      }
    }
  }

  /** Index of the first occurrence of `x` in `s`. */
  function FirstIndex<T(==)>(s: seq<T>, x: T): (i: nat)
    requires x in s
    ensures i < |s| && s[i] == x && x !in s[..i]
  {
    if s[0] == x then 0 else 1 + FirstIndex(s[1..], x)
  }

  lemma {:induction false} FirstIndexExtend<T>(s: seq<T>, x: T, y: T)
    requires y in s
    ensures FirstIndex(s + [x], y) == FirstIndex(s, y)
  {
    if s[0] != y {
      assert (s + [x])[1..] == s[1..] + [x];
      FirstIndexExtend(s[1..], x, y);
    }
  }

  /** A string JavaScript treats as true: present and non-empty. */
  predicate Truthy(s: Option<string>) {
    s.Some? && s.value != ""
  }

  /** `s || fallback` */
  function Or(s: Option<string>, fallback: string): (r: string)
    ensures Truthy(s) ==> r == s.value
    ensures !Truthy(s) ==> r == fallback
    ensures fallback != "" ==> r != ""
  {
    if Truthy(s) then s.value else fallback
  }

  /** `s || null`: the empty string becomes `null`. */
  function OrNull(s: Option<string>): (r: Option<string>)
    ensures r.Some? <==> Truthy(s)
    ensures r.Some? ==> r == s
  {
    if Truthy(s) then s else None
  }
}
