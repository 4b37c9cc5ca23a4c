/** Python's ordering of `str` values (code point by code point, a proper
    prefix first) and the two uses `uniter.py` makes of `sorted`: a stable
    sort of records by their `'name'` key, and the sorted list of a set of
    strings. */
module Order {

  /** `a <= b` on Python strings. */
  predicate Le(a: string, b: string)
    decreases |a|
  {
    a == [] || (b != [] && (a[0] < b[0] || (a[0] == b[0] && Le(a[1..], b[1..]))))
  }

  predicate Lt(a: string, b: string)
  {
    Le(a, b) && a != b
  }

  lemma {:induction false} LeRefl(a: string)
    ensures Le(a, a)
    decreases |a|
  {
    if a != [] { LeRefl(a[1..]); }
  }

  lemma {:induction false} LeTotal(a: string, b: string)
    ensures Le(a, b) || Le(b, a)
    decreases |a|
  {
    if a != [] && b != [] && a[0] == b[0] { LeTotal(a[1..], b[1..]); }
  }

  lemma {:induction false} LeAntisym(a: string, b: string)
    requires Le(a, b) && Le(b, a)
    ensures a == b
    decreases |a|
  {
    if a != [] {
      LeAntisym(a[1..], b[1..]);
      assert a == [a[0]] + a[1..] && b == [b[0]] + b[1..];
    }
  }

  lemma {:induction false} LeTrans(a: string, b: string, c: string)
    requires Le(a, b) && Le(b, c)
    ensures Le(a, c)
    decreases |a|
  {
    if a != [] && b != [] && c != [] && a[0] == b[0] == c[0] {
      LeTrans(a[1..], b[1..], c[1..]);
    }
  }

  // ---------------------------------------------------------------------
  // Stable sort of records by a string key: `sorted(xs, key=lambda x: x['name'])`

  predicate SortedBy<T>(xs: seq<T>, key: T -> string)
  {
    forall i, j :: 0 <= i < j < |xs| ==> Le(key(xs[i]), key(xs[j]))
  }

  /** The elements of `xs` whose key is `k`, in their order in `xs`. */
  function WithKey<T>(xs: seq<T>, key: T -> string, k: string): seq<T>
  {
    if xs == [] then []
    else (if key(xs[0]) == k then [xs[0]] else []) + WithKey(xs[1..], key, k)
  }

  /** Puts `x` before the first element whose key is not smaller than its own. */
  function InsertBy<T>(x: T, ys: seq<T>, key: T -> string): seq<T>
  {
    if ys == [] || Le(key(x), key(ys[0])) then [x] + ys
    else [ys[0]] + InsertBy(x, ys[1..], key)
  }

  /** Insertion sort; its result is the one stable sort of `xs` (SortByUnique). */
  function SortBy<T>(xs: seq<T>, key: T -> string): (r: seq<T>)
    ensures multiset(r) == multiset(xs)
    ensures SortedBy(r, key)
  {
    if xs == [] then []
    else
      var rest := SortBy(xs[1..], key);
      InsertByKeeps(xs[0], rest, key);
      assert xs == [xs[0]] + xs[1..];
      InsertBy(xs[0], rest, key)
  }

  lemma SortedTail<T>(ys: seq<T>, key: T -> string)
    requires SortedBy(ys, key) && ys != []
    ensures SortedBy(ys[1..], key)
    ensures forall j :: 0 <= j < |ys[1..]| ==> Le(key(ys[0]), key(ys[1..][j]))
  {
    forall i, j | 0 <= i < j < |ys[1..]| ensures Le(key(ys[1..][i]), key(ys[1..][j])) {
      assert ys[1..][i] == ys[i + 1] && ys[1..][j] == ys[j + 1];
    }
  }

  lemma {:induction false} InsertByElems<T>(x: T, ys: seq<T>, key: T -> string)
    ensures multiset(InsertBy(x, ys, key)) == multiset([x] + ys)
  {
    if ys != [] && !Le(key(x), key(ys[0])) {
      InsertByElems(x, ys[1..], key);
      assert ys == [ys[0]] + ys[1..];
    }
  }

  lemma {:induction false} InsertByMember<T>(x: T, ys: seq<T>, key: T -> string, z: T)
    requires z in InsertBy(x, ys, key)
    ensures z == x || z in ys
  {
    if ys != [] && !Le(key(x), key(ys[0])) && z != ys[0] {
      InsertByMember(x, ys[1..], key, z);
    }
  }

  lemma InsertByFrontSorted<T>(x: T, ys: seq<T>, key: T -> string)
    requires SortedBy(ys, key)
    requires ys == [] || Le(key(x), key(ys[0]))
    ensures SortedBy([x] + ys, key)
  {
    var r := [x] + ys;
    forall i, j | 0 <= i < j < |r| ensures Le(key(r[i]), key(r[j])) {
      if i == 0 {
        assert r[j] == ys[j - 1];
        if j > 1 { LeTrans(key(x), key(ys[0]), key(ys[j - 1])); }
      } else {
        assert r[i] == ys[i - 1] && r[j] == ys[j - 1];
      }
    }
  }

  lemma ConsSorted<T>(y: T, tail: seq<T>, key: T -> string)
    requires SortedBy(tail, key)
    requires forall j :: 0 <= j < |tail| ==> Le(key(y), key(tail[j]))
    ensures SortedBy([y] + tail, key)
  {
    var r := [y] + tail;
    forall i, j | 0 <= i < j < |r| ensures Le(key(r[i]), key(r[j])) {
      assert r[j] == tail[j - 1];
      if i > 0 { assert r[i] == tail[i - 1]; }
    }
  }

  lemma {:induction false} InsertByKeeps<T>(x: T, ys: seq<T>, key: T -> string)
    requires SortedBy(ys, key)
    ensures multiset(InsertBy(x, ys, key)) == multiset([x] + ys)
    ensures SortedBy(InsertBy(x, ys, key), key)
  {
    InsertByElems(x, ys, key);
    if ys == [] || Le(key(x), key(ys[0])) {
      InsertByFrontSorted(x, ys, key);
    } else {
      SortedTail(ys, key);
      InsertByKeeps(x, ys[1..], key);
      var tail := InsertBy(x, ys[1..], key);
      LeTotal(key(x), key(ys[0]));
      forall j | 0 <= j < |tail| ensures Le(key(ys[0]), key(tail[j])) {
        InsertByMember(x, ys[1..], key, tail[j]);
      }
      ConsSorted(ys[0], tail, key);
    }
  }

  lemma {:induction false} InsertByWithKey<T>(x: T, ys: seq<T>, key: T -> string, k: string)
    requires SortedBy(ys, key)
    ensures WithKey(InsertBy(x, ys, key), key, k)
         == (if key(x) == k then [x] else []) + WithKey(ys, key, k)
  {
    if ys == [] || Le(key(x), key(ys[0])) {
      assert ([x] + ys)[1..] == ys;
    } else {
      SortedTail(ys, key);
      InsertByWithKey(x, ys[1..], key, k);
      assert key(x) != key(ys[0]) by { LeRefl(key(x)); }
      var tail := InsertBy(x, ys[1..], key);
      var a := if key(ys[0]) == k then [ys[0]] else [];
      var b := if key(x) == k then [x] else [];
      var w := WithKey(ys[1..], key, k);
      assert ([ys[0]] + tail)[1..] == tail;
      assert WithKey([ys[0]] + tail, key, k) == a + WithKey(tail, key, k);
      assert WithKey(tail, key, k) == b + w;
      assert WithKey(ys, key, k) == a + w;
      if a == [] {
        assert a + (b + w) == b + w && a + w == w;
      } else {
        assert b == [];
        assert b + (a + w) == a + w && b + w == w;
      }
    }
  }

  /** The sort is stable: elements with equal keys keep their input order. */
  lemma {:induction false} SortByStable<T>(xs: seq<T>, key: T -> string, k: string)
    ensures WithKey(SortBy(xs, key), key, k) == WithKey(xs, key, k)
  {
    if xs != [] {
      SortByStable(xs[1..], key, k);
      InsertByWithKey(xs[0], SortBy(xs[1..], key), key, k);
    }
  }

  lemma {:induction false} WithKeyHead<T>(xs: seq<T>, key: T -> string)
    requires xs != []
    ensures WithKey(xs, key, key(xs[0])) == [xs[0]] + WithKey(xs[1..], key, key(xs[0]))
  {
  }

  lemma {:induction false} WithKeyMember<T>(xs: seq<T>, key: T -> string, x: T)
    requires x in xs
    ensures x in WithKey(xs, key, key(x))
  {
    if xs[0] != x {
      WithKeyMember(xs[1..], key, x);
    }
  }

  lemma {:induction false} WithKeyIn<T>(xs: seq<T>, key: T -> string, k: string, x: T)
    requires x in WithKey(xs, key, k)
    ensures x in xs && key(x) == k
  {
    if xs != [] && !(key(xs[0]) == k && x == xs[0]) {
      WithKeyIn(xs[1..], key, k, x);
    }
  }

  /** Two sequences that are both sorted by key and agree with each other on
      the order of every group of equal keys are equal: stable sorting has
      exactly one result, so insertion sort and Python's `sorted` agree. */
  lemma {:induction false} SortByUnique<T>(r1: seq<T>, r2: seq<T>, key: T -> string)
    requires SortedBy(r1, key) && SortedBy(r2, key)
    requires forall k :: WithKey(r1, key, k) == WithKey(r2, key, k)
    ensures r1 == r2
    decreases |r1|
  {
    if r1 != [] {
      WithKeyHead(r1, key);
      assert WithKey(r2, key, key(r1[0])) != [];
    }
    if r2 != [] {
      WithKeyHead(r2, key);
      assert WithKey(r1, key, key(r2[0])) != [];
    }
    if r1 != [] && r2 != [] {
      var a, b := r1[0], r2[0];
      WithKeyMember(r2, key, b);
      assert b in WithKey(r1, key, key(b));
      WithKeyIn(r1, key, key(b), b);
      WithKeyMember(r1, key, a);
      assert a in WithKey(r2, key, key(a));
      WithKeyIn(r2, key, key(a), a);
      var i :| 0 <= i < |r1| && r1[i] == b;
      var j :| 0 <= j < |r2| && r2[j] == a;
      if i > 0 { assert Le(key(a), key(b)); } else { LeRefl(key(a)); }
      if j > 0 { assert Le(key(b), key(a)); } else { LeRefl(key(b)); }
      LeAntisym(key(a), key(b));
      WithKeyHead(r1, key);
      WithKeyHead(r2, key);
      var w1, w2 := WithKey(r1, key, key(a)), WithKey(r2, key, key(b));
      assert w1[0] == a && w2[0] == b;
      assert w1 == w2;
      forall k ensures WithKey(r1[1..], key, k) == WithKey(r2[1..], key, k) {
        var h := if key(a) == k then [a] else [];
        assert WithKey(r1, key, k) == h + WithKey(r1[1..], key, k);
        assert WithKey(r2, key, k) == h + WithKey(r2[1..], key, k);
        assert WithKey(r1[1..], key, k) == (h + WithKey(r1[1..], key, k))[|h|..];
        assert WithKey(r2[1..], key, k) == (h + WithKey(r2[1..], key, k))[|h|..];
      }
      SortByUnique(r1[1..], r2[1..], key);
      assert r1 == [a] + r1[1..] && r2 == [b] + r2[1..];
    }
  }

  // ---------------------------------------------------------------------
  // `sorted(some_set)` for a set of strings

  predicate StrictlySorted(xs: seq<string>)
  {
    forall i, j :: 0 <= i < j < |xs| ==> Lt(xs[i], xs[j])
  }

  lemma {:induction false} HasMinimum(s: set<string>)
    requires s != {}
    ensures exists m :: m in s && forall y :: y in s ==> Le(m, y)
    decreases |s|
  {
    var x :| x in s;
    if s == {x} {
      LeRefl(x);
    } else {
      HasMinimum(s - {x});
      var m :| m in s - {x} && forall y :: y in s - {x} ==> Le(m, y);
      LeTotal(m, x);
      if Le(m, x) {
        assert forall y :: y in s ==> Le(m, y);
      } else {
        forall y | y in s ensures Le(x, y) {
          if y != x { LeTrans(x, m, y); } else { LeRefl(x); }
        }
      }
    }
  }

  /** The elements of `s` in increasing order: the list `sorted(s)`. */
  ghost function SortedSet(s: set<string>): (r: seq<string>)
    ensures |r| == |s|
    ensures forall x :: x in r <==> x in s
    ensures StrictlySorted(r)
    decreases |s|
  {
    if s == {} then []
    else
      HasMinimum(s);
      var m :| m in s && forall y :: y in s ==> Le(m, y);
      var rest := SortedSet(s - {m});
      PrependMinimum(m, s, rest);
      [m] + rest
  }

  /** Putting the least element in front of the sorted remainder keeps the list sorted. */
  lemma PrependMinimum(m: string, s: set<string>, rest: seq<string>)
    requires m in s && forall y :: y in s ==> Le(m, y)
    requires |rest| == |s - {m}| && StrictlySorted(rest)
    requires forall x :: x in rest <==> x in s - {m}
    ensures |[m] + rest| == |s|
    ensures forall x :: x in [m] + rest <==> x in s
    ensures StrictlySorted([m] + rest)
  {
    RemoveOne(m, s, rest);
    BelowAll(m, s, rest);
    ConsStrictlySorted(m, rest);
  }

  /** Taking `m` out of `s` leaves one element fewer, and `m` with the rest is `s` again. */
  lemma RemoveOne(m: string, s: set<string>, rest: seq<string>)
    requires m in s && |rest| == |s - {m}|
    requires forall x :: x in rest <==> x in s - {m}
    ensures |[m] + rest| == |s|
    ensures forall x :: x in [m] + rest <==> x in s
  {
    assert s == (s - {m}) + {m};
    forall x ensures x in [m] + rest <==> x in s {
      assert x in [m] + rest <==> x == m || x in rest;
    }
  }

  /** The least element of `s` is below every other element. */
  lemma BelowAll(m: string, s: set<string>, rest: seq<string>)
    requires forall y :: y in s ==> Le(m, y)
    requires forall x :: x in rest ==> x in s - {m}
    ensures forall j :: 0 <= j < |rest| ==> Lt(m, rest[j])
  {
    forall j | 0 <= j < |rest| ensures Lt(m, rest[j]) {
      assert rest[j] in rest;
      assert rest[j] in s && rest[j] != m;
    }
  }

  /** An element below everything in a strictly sorted list can go in front. */
  lemma ConsStrictlySorted(m: string, rest: seq<string>)
    requires StrictlySorted(rest)
    requires forall j :: 0 <= j < |rest| ==> Lt(m, rest[j])
    ensures StrictlySorted([m] + rest)
  {
    var r := [m] + rest;
    forall i, j | 0 <= i < j < |r| ensures Lt(r[i], r[j]) {
      assert r[j] == rest[j - 1];
      if i > 0 {
        assert r[i] == rest[i - 1];
      }
    }
  }

  /** A strictly sorted list is fixed by its set of elements. */
  lemma {:induction false} StrictlySortedUnique(a: seq<string>, b: seq<string>)
    requires StrictlySorted(a) && StrictlySorted(b)
    requires forall x :: x in a <==> x in b
    ensures a == b
    decreases |a|
  {
    if a != [] { assert a[0] in b; }
    if b != [] { assert b[0] in a; }
    if a != [] && b != [] {
      var i :| 0 <= i < |b| && b[i] == a[0];
      var j :| 0 <= j < |a| && a[j] == b[0];
      if i > 0 && j > 0 {
        assert Lt(b[0], a[0]) && Lt(a[0], b[0]);
        LeAntisym(a[0], b[0]);
      }
      assert a[0] == b[0];
      forall x ensures x in a[1..] <==> x in b[1..] {
        if x in a[1..] {
          var p :| 0 <= p < |a[1..]| && a[1..][p] == x;
          assert a[p + 1] == x && Lt(a[0], x);
          assert x in b;
        }
        if x in b[1..] {
          var p :| 0 <= p < |b[1..]| && b[1..][p] == x;
          assert b[p + 1] == x && Lt(b[0], x);
          assert x in a;
        }
      }
      StrictlySortedUnique(a[1..], b[1..]);
      assert a == [a[0]] + a[1..] && b == [b[0]] + b[1..];
    }
  }

  /** A sequence that holds each value at most once has no repeated position. */
  lemma NoRepeats<T>(r: seq<T>, i: nat, j: nat)
    requires forall x :: multiset(r)[x] <= 1
    requires i < j < |r|
    ensures r[i] != r[j]
  {
    assert r == r[..j] + r[j..];
    assert r[i] in r[..j] && r[j] in r[j..];
    assert multiset(r)[r[j]] == multiset(r[..j])[r[j]] + multiset(r[j..])[r[j]];
  }

  function Identity(s: string): string { s }

  /** `sorted(s)` as a program computes it: list the set, then sort the list. */
  method SortSet(s: set<string>) returns (r: seq<string>)
    ensures r == SortedSet(s)
  {
    var listed: seq<string> := [];
    var rest := s;
    while rest != {}
      invariant forall x :: x in listed <==> x in s && x !in rest
      invariant rest <= s
      invariant forall x :: multiset(listed)[x] <= 1
      decreases |rest|
    {
      var x :| x in rest;
      listed := listed + [x];
      rest := rest - {x};
    }
    r := SortBy(listed, Identity);
    forall i, j | 0 <= i < j < |r| ensures Lt(r[i], r[j]) {
      assert Le(r[i], r[j]);
      NoRepeats(r, i, j);
    }
    forall x ensures x in r <==> x in s {
      assert x in r <==> x in multiset(r);
      assert x in listed <==> x in multiset(listed);
    }
    StrictlySortedUnique(r, SortedSet(s));
  }
}
