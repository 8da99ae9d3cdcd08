/** `sort.Strings`, and why its result does not depend on the order it starts from. */
module Sorting {

  /** The order of Go strings. */
  predicate StrLe(a: string, b: string) {
    if a == [] then true
    else if b == [] then false
    else a[0] < b[0] || (a[0] == b[0] && StrLe(a[1..], b[1..]))
  }

  /** It is that of the first characters that differ; where there are none, the shorter string comes first. */
  lemma {:induction false} StrLeExact(a: string, b: string, n: nat)
    requires n <= |a| && n <= |b| && a[..n] == b[..n] && (n < |a| && n < |b| ==> a[n] != b[n])
    ensures StrLe(a, b) <==> n == |a| || (n < |b| && a[n] < b[n])
    decreases n
  {
    if n > 0 {
      assert a[0] == a[..n][0] == b[0];
      assert a[1..][..n - 1] == a[..n][1..] == b[1..][..n - 1];
      StrLeExact(a[1..], b[1..], n - 1);
    }
  }

  lemma StrLeTotal(a: string, b: string)
    ensures StrLe(a, b) || StrLe(b, a)
  {
  }

  lemma StrLeTransitive(a: string, b: string, c: string)
    requires StrLe(a, b) && StrLe(b, c)
    ensures StrLe(a, c)
  {
  }

  lemma {:induction false} StrLeAntisymmetric(a: string, b: string)
    requires StrLe(a, b) && StrLe(b, a)
    ensures a == b
  {
    if a != [] && b != [] {
      StrLeAntisymmetric(a[1..], b[1..]);
      assert a == [a[0]] + a[1..] && b == [b[0]] + b[1..];
    }
  }

  predicate SortedBy<T>(xs: seq<T>, key: T -> string) {
    forall i, j :: 0 <= i < j < |xs| ==> StrLe(key(xs[i]), key(xs[j]))
  }

  /** Puts one element into its place in a sorted sequence. */
  method Insert<T>(xs: seq<T>, x: T, key: T -> string) returns (ys: seq<T>)
    requires SortedBy(xs, key)
    ensures SortedBy(ys, key) && multiset(ys) == multiset(xs) + multiset{x}
  {
    hide StrLe;
    var i := 0;
    while i < |xs| && StrLe(key(xs[i]), key(x))
      invariant i <= |xs|
      invariant forall k :: 0 <= k < i ==> StrLe(key(xs[k]), key(x))
    {
      i := i + 1;
    }
    ys := xs[..i] + [x] + xs[i..];
    assert xs == xs[..i] + xs[i..];
    if i < |xs| {
      StrLeTotal(key(xs[i]), key(x));
      forall k | i <= k < |xs| ensures StrLe(key(x), key(xs[k])) {
        if k > i {
          StrLeTransitive(key(x), key(xs[i]), key(xs[k]));
        }
      }
    }
  }

  method SortBy<T>(xs: seq<T>, key: T -> string) returns (ys: seq<T>)
    ensures SortedBy(ys, key) && multiset(ys) == multiset(xs)
  {
    ys := [];
    for i := 0 to |xs|
      invariant SortedBy(ys, key) && multiset(ys) == multiset(xs[..i])
    {
      assert xs[..i + 1] == xs[..i] + [xs[i]];
      ys := Insert(ys, xs[i], key);
    }
    assert xs[..|xs|] == xs;
  }

  function Identity(s: string): string { s }

  predicate IsSorted(xs: seq<string>) {
    SortedBy(xs, Identity)
  }

  lemma SameElements<T>(xs: seq<T>, ys: seq<T>)
    requires multiset(xs) == multiset(ys)
    ensures |xs| == |ys| && forall x :: x in xs <==> x in ys
  {
    assert |multiset(xs)| == |xs| && |multiset(ys)| == |ys|;
    forall x ensures x in xs <==> x in ys {
      assert x in xs <==> x in multiset(xs);
      assert x in ys <==> x in multiset(ys);
    }
  }

  /** The first of a sorted sequence is below everything in it. */
  lemma HeadIsLeast(xs: seq<string>, x: string)
    requires IsSorted(xs) && x in xs
    ensures StrLe(xs[0], x)
  {
    var k :| 0 <= k < |xs| && xs[k] == x;
    if k == 0 {
      StrLeTotal(x, x);
    } else {
      assert StrLe(Identity(xs[0]), Identity(xs[k]));
    }
  }

  lemma TailElements(xs: seq<string>)
    requires xs != []
    ensures multiset(xs[1..]) == multiset(xs) - multiset{xs[0]}
  {
    assert xs == [xs[0]] + xs[1..];
  }

  lemma SameHead(xs: seq<string>, ys: seq<string>)
    requires IsSorted(xs) && IsSorted(ys) && multiset(xs) == multiset(ys) && xs != []
    ensures ys != [] && xs[0] == ys[0]
  {
    SameElements(xs, ys);
    HeadIsLeast(xs, ys[0]);
    HeadIsLeast(ys, xs[0]);
    StrLeAntisymmetric(xs[0], ys[0]);
  }

  /** Sorting is canonical: the same elements give the same sequence. */
  lemma {:induction false} SortedUnique(xs: seq<string>, ys: seq<string>)
    requires IsSorted(xs) && IsSorted(ys) && multiset(xs) == multiset(ys)
    ensures xs == ys
    decreases |xs|
  {
    if xs == [] {
      SameElements(xs, ys);
    } else {
      SameHead(xs, ys);
      TailElements(xs);
      TailElements(ys);
      SortedTail(xs);
      SortedTail(ys);
      SortedUnique(xs[1..], ys[1..]);
      assert xs == [xs[0]] + xs[1..] && ys == [ys[0]] + ys[1..];
    }
  }

  lemma SortedTail(xs: seq<string>)
    requires IsSorted(xs) && xs != []
    ensures IsSorted(xs[1..])
  {
    forall i, j | 0 <= i < j < |xs| - 1 ensures StrLe(Identity(xs[1..][i]), Identity(xs[1..][j])) {
      assert StrLe(Identity(xs[i + 1]), Identity(xs[j + 1]));
    }
  }

  /** The sorted arrangement of a sequence. */
  function Sorted(xs: seq<string>): (ys: seq<string>)
    ensures multiset(ys) == multiset(xs) && IsSorted(ys)
  {
    if xs == [] then []
    else
      assert xs == [xs[0]] + xs[1..];
      InsertInto(Sorted(xs[1..]), xs[0])
  }

  function InsertInto(xs: seq<string>, x: string): (ys: seq<string>)
    requires IsSorted(xs)
    ensures multiset(ys) == multiset(xs) + multiset{x} && IsSorted(ys)
  {
    if xs == [] then [x]
    else if StrLe(x, xs[0]) then
      assert IsSorted([x] + xs) by { SortedCons(x, xs); }
      [x] + xs
    else
      SortedTail(xs);
      assert xs == [xs[0]] + xs[1..];
      var rest := InsertInto(xs[1..], x);
      assert IsSorted([xs[0]] + rest) by { InsertedCons(xs, x, rest); }
      [xs[0]] + rest
  }

  lemma SortedCons(x: string, xs: seq<string>)
    requires IsSorted(xs) && (xs != [] ==> StrLe(x, xs[0]))
    ensures IsSorted([x] + xs)
  {
    var all := [x] + xs;
    forall i, j | 0 <= i < j < |all| ensures StrLe(Identity(all[i]), Identity(all[j])) {
      if i == 0 {
        HeadIsLeast(xs, all[j]);
        StrLeTransitive(x, xs[0], all[j]);
      } else {
        assert StrLe(Identity(xs[i - 1]), Identity(xs[j - 1]));
      }
    }
  }

  lemma InsertedCons(xs: seq<string>, x: string, rest: seq<string>)
    requires IsSorted(xs) && xs != [] && !StrLe(x, xs[0])
    requires IsSorted(rest) && multiset(rest) == multiset(xs[1..]) + multiset{x}
    ensures IsSorted([xs[0]] + rest)
  {
    if rest != [] {
      assert rest[0] in multiset(rest);
      StrLeTotal(x, xs[0]);
      if rest[0] != x {
        assert rest[0] in xs[1..];
        HeadIsLeast(xs, rest[0]);
      }
    }
    SortedCons(xs[0], rest);
  }

  /** `sort.Strings`. */
  method SortStrings(xs: seq<string>) returns (ys: seq<string>)
    ensures ys == Sorted(xs)
  {
    ys := SortBy(xs, Identity);
    SortedUnique(ys, Sorted(xs));
  }

  /** The order in which the elements come does not matter. */
  lemma SortedCanonical(xs: seq<string>, ys: seq<string>)
    requires multiset(xs) == multiset(ys)
    ensures Sorted(xs) == Sorted(ys)
  {
    SortedUnique(Sorted(xs), Sorted(ys));
  }

  /** Sorted lists are the same exactly if the lists have the same elements. */
  lemma SortedExact(xs: seq<string>, ys: seq<string>)
    ensures Sorted(xs) == Sorted(ys) <==> multiset(xs) == multiset(ys)
  {
    if multiset(xs) == multiset(ys) {
      SortedCanonical(xs, ys);
    }
  }
}
