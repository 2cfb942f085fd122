/** Optional values, results, and the list operations the modules share. */
module Sequences {

  datatype Option<+T> = None | Some(value: T) {
    function GetOr(default: T): T {
      match this
      case Some(v) => v
      case None => default
    }
  }

  datatype Result<+T, +E> = Ok(value: T) | Err(error: E)

  function Map<A, B>(f: A -> B, s: seq<A>): (r: seq<B>)
    ensures |r| == |s|
    ensures forall i | 0 <= i < |s| :: r[i] == f(s[i])
  {
    if s == [] then [] else [f(s[0])] + Map(f, s[1..])
  }

  function Filter<A(!new)>(p: A -> bool, s: seq<A>): (r: seq<A>)
    ensures forall x :: x in r <==> x in s && p(x)
  {
    if s == [] then []
    else if p(s[0]) then [s[0]] + Filter(p, s[1..])
    else Filter(p, s[1..])
  }

  function Sum(s: seq<int>): int {
    if s == [] then 0 else s[0] + Sum(s[1..])
  }

  lemma {:induction false} SumConcat(a: seq<int>, b: seq<int>)
    ensures Sum(a + b) == Sum(a) + Sum(b)
  {
    if a == [] {
      assert a + b == b;
    } else {
      SumConcat(a[1..], b);
      assert (a + b)[1..] == a[1..] + b;
    }
  }

  /** In a permutation of `a`, the head of `a` stands somewhere, and the rests are permutations. */
  lemma LocateHead<A>(a: seq<A>, b: seq<A>) returns (i: nat)
    requires a != [] && multiset(a) == multiset(b)
    ensures i < |b| && b == b[..i] + [a[0]] + b[i + 1..]
    ensures multiset(a[1..]) == multiset(b[..i] + b[i + 1..])
  {
    assert a == [a[0]] + a[1..];
    assert a[0] in multiset(b);
    i :| 0 <= i < |b| && b[i] == a[0];
    assert b == b[..i] + [a[0]] + b[i + 1..];
    assert multiset(a[1..]) == multiset(a) - multiset{a[0]};
    assert multiset(b[..i] + b[i + 1..]) == multiset(b) - multiset{a[0]};
  }

  /** A sum does not depend on the order of its terms. */
  lemma {:induction false} SumPermutation(a: seq<int>, b: seq<int>)
    requires multiset(a) == multiset(b)
    ensures Sum(a) == Sum(b)
  {
    if a == [] {
      assert |multiset(b)| == 0;
    } else {
      var i := LocateHead(a, b);
      SumPermutation(a[1..], b[..i] + b[i + 1..]);
      SumConcat(b[..i], b[i + 1..]);
      SumConcat(b[..i] + [a[0]], b[i + 1..]);
      SumConcat(b[..i], [a[0]]);
    }
  }

  lemma MapConcat<A, B>(f: A -> B, a: seq<A>, b: seq<A>)
    ensures Map(f, a + b) == Map(f, a) + Map(f, b)
  {
  }

  lemma {:induction false} MapSplit<A, B>(f: A -> B, a: seq<A>, x: A, b: seq<A>)
    ensures multiset(Map(f, a + [x] + b)) == multiset(Map(f, a + b)) + multiset{f(x)}
  {
    MapConcat(f, a + [x], b);
    MapConcat(f, a, [x]);
    MapConcat(f, a, b);
    var ma, mb, y := Map(f, a), Map(f, b), f(x);
    assert Map(f, [x]) == [y];
    assert multiset(ma + [y] + mb) == multiset(ma + mb) + multiset{y};
  }

  /** Mapping permuted lists gives permuted lists. */
  lemma {:induction false} MapPermutation<A, B>(f: A -> B, a: seq<A>, b: seq<A>)
    requires multiset(a) == multiset(b)
    ensures multiset(Map(f, a)) == multiset(Map(f, b))
  {
    if a == [] {
      assert |multiset(b)| == 0;
    } else {
      var i := LocateHead(a, b);
      MapPermutation(f, a[1..], b[..i] + b[i + 1..]);
      MapSplit(f, b[..i], a[0], b[i + 1..]);
      assert Map(f, a) == [f(a[0])] + Map(f, a[1..]);
    }
  }

  ghost predicate Distinct<A>(s: seq<A>) {
    forall i, j | 0 <= i < j < |s| :: s[i] != s[j]
  }

  lemma {:induction false} DistinctOnce<A>(s: seq<A>, x: A)
    requires Distinct(s)
    ensures multiset(s)[x] <= 1
  {
    if s != [] {
      DistinctOnce(s[1..], x);
      assert s == [s[0]] + s[1..];
      if s[0] == x {
        assert x !in s[1..];
      }
    }
  }

  /** A rearrangement of distinct elements has distinct elements. */
  lemma DistinctPermutation<A>(a: seq<A>, b: seq<A>)
    requires Distinct(a) && multiset(a) == multiset(b)
    ensures Distinct(b)
  {
    forall i, j | 0 <= i < j < |b| ensures b[i] != b[j] {
      DistinctOnce(a, b[i]);
      assert b == b[..i] + [b[i]] + b[i + 1..j] + [b[j]] + b[j + 1..];
    }
  }

  lemma HeadTail<A>(a: seq<A>)
    requires a != []
    ensures a == [a[0]] + a[1..]
  {
  }

  lemma ConsConcat<A>(x: A, a: seq<A>, b: seq<A>)
    ensures ([x] + a) + b == [x] + (a + b)
  {
  }

  lemma Associate<A>(a: seq<A>, b: seq<A>, c: seq<A>)
    ensures (a + b) + c == a + (b + c)
  {
  }

  lemma MapCons<A, B>(f: A -> B, x: A, a: seq<A>)
    ensures Map(f, [x] + a) == [f(x)] + Map(f, a)
  {
  }

  lemma MapIdentity<A>(f: A -> A, s: seq<A>)
    requires forall i | 0 <= i < |s| :: f(s[i]) == s[i]
    ensures Map(f, s) == s
  {
  }

  /** A list with the element at position `i` moved to the front. */
  function Fronted<A>(s: seq<A>, i: nat): (r: seq<A>)
    requires i < |s|
    ensures multiset(r) == multiset(s)
  {
    assert s == s[..i] + [s[i]] + s[i + 1..];
    [s[i]] + (s[..i] + s[i + 1..])
  }

  /** Two elements taken to the front, in either order, leave a permutation. */
  lemma TakeTwo<A>(a: seq<A>, i: nat, j: nat)
    requires i < j < |a|
    ensures var rest := a[..i] + a[i + 1..j] + a[j + 1..];
            multiset([a[i]] + ([a[j]] + rest)) == multiset(a) && multiset([a[j]] + ([a[i]] + rest)) == multiset(a)
  {
    assert a == a[..i] + [a[i]] + a[i + 1..j] + [a[j]] + a[j + 1..];
  }
}
