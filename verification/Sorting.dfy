/** The comparator sort of the host language: stable, and described only by its comparator. */
module Sorting {

  import opened Sequences

  /** What a comparator must satisfy for its sort to have a defined result. */
  ghost predicate TotalPreorder<T(!new)>(le: (T, T) -> bool) {
    && (forall x, y :: le(x, y) || le(y, x))
    && (forall x, y, z :: le(x, y) && le(y, z) ==> le(x, z))
  }

  ghost predicate SortedBy<T>(le: (T, T) -> bool, s: seq<T>) {
    forall i, j | 0 <= i < j < |s| :: le(s[i], s[j])
  }

  /** No two different elements of `s` compare as equal. */
  ghost predicate NoTies<T>(le: (T, T) -> bool, s: seq<T>) {
    forall x, y | x in s && y in s && le(x, y) && le(y, x) :: x == y
  }

  function Insert<T>(le: (T, T) -> bool, x: T, s: seq<T>): seq<T> {
    if s == [] || le(x, s[0]) then [x] + s else [s[0]] + Insert(le, x, s[1..])
  }

  function Sort<T>(le: (T, T) -> bool, s: seq<T>): seq<T> {
    if s == [] then [] else Insert(le, s[0], Sort(le, s[1..]))
  }

  lemma {:induction false} InsertPermutes<T>(le: (T, T) -> bool, x: T, s: seq<T>)
    ensures multiset(Insert(le, x, s)) == multiset{x} + multiset(s)
  {
    if s == [] || le(x, s[0]) {
    } else {
      InsertPermutes(le, x, s[1..]);
      assert s == [s[0]] + s[1..];
    }
  }

  lemma {:induction false} SortPermutes<T>(le: (T, T) -> bool, s: seq<T>)
    ensures multiset(Sort(le, s)) == multiset(s)
    ensures |Sort(le, s)| == |s|
  {
    if s != [] {
      SortPermutes(le, s[1..]);
      InsertPermutes(le, s[0], Sort(le, s[1..]));
      assert s == [s[0]] + s[1..];
    }
    assert |multiset(Sort(le, s))| == |multiset(s)|;
  }

  lemma {:induction false} InsertSorted<T(!new)>(le: (T, T) -> bool, x: T, s: seq<T>)
    requires TotalPreorder(le) && SortedBy(le, s)
    ensures SortedBy(le, Insert(le, x, s))
  {
    if s == [] || le(x, s[0]) {
    } else {
      InsertSorted(le, x, s[1..]);
      InsertPermutes(le, x, s[1..]);
      var r := Insert(le, x, s[1..]);
      forall j | 0 <= j < |r| ensures le(s[0], r[j]) {
        assert r[j] in multiset(r);
        assert r[j] == x || r[j] in s[1..];
      }
    }
  }

  lemma {:induction false} SortSorted<T(!new)>(le: (T, T) -> bool, s: seq<T>)
    requires TotalPreorder(le)
    ensures SortedBy(le, Sort(le, s))
  {
    if s != [] {
      SortSorted(le, s[1..]);
      InsertSorted(le, s[0], Sort(le, s[1..]));
    }
  }

  /** The first element of a sorted list is below every element. */
  lemma SortedHead<T(!new)>(le: (T, T) -> bool, s: seq<T>, x: T)
    requires TotalPreorder(le) && SortedBy(le, s) && s != [] && x in s
    ensures le(s[0], x)
  {
    assert le(x, x);
  }

  lemma TailMultiset<T>(s: seq<T>)
    requires s != []
    ensures multiset(s[1..]) == multiset(s) - multiset{s[0]}
  {
    assert s == [s[0]] + s[1..];
  }

  /** A list without ties has only one sorted arrangement. */
  lemma {:induction false} SortedUnique<T(!new)>(le: (T, T) -> bool, a: seq<T>, b: seq<T>)
    requires TotalPreorder(le) && SortedBy(le, a) && SortedBy(le, b)
    requires multiset(a) == multiset(b)
    requires NoTies(le, a)
    ensures a == b
  {
    assert |multiset(a)| == |a| && |multiset(b)| == |b|;
    if a != [] {
      assert a[0] == b[0] by {
        assert a[0] in multiset(b) && b[0] in multiset(a);
        SortedHead(le, a, b[0]);
        SortedHead(le, b, a[0]);
      }
      TailMultiset(a);
      TailMultiset(b);
      assert NoTies(le, a[1..]) by {
        assert forall x | x in a[1..] :: x in a;
      }
      SortedUnique(le, a[1..], b[1..]);
    }
  }

  /** Without ties, sorting forgets the order its input came in. */
  lemma SortForgetsOrder<T(!new)>(le: (T, T) -> bool, a: seq<T>, b: seq<T>)
    requires TotalPreorder(le)
    requires multiset(a) == multiset(b)
    requires NoTies(le, a)
    ensures Sort(le, a) == Sort(le, b)
  {
    SortPermutes(le, a);
    SortPermutes(le, b);
    SortSorted(le, a);
    SortSorted(le, b);
    forall x | x in Sort(le, a) ensures x in a {
      assert x in multiset(Sort(le, a));
    }
    SortedUnique(le, Sort(le, a), Sort(le, b));
  }

  /** The sort is stable: two tied elements come out in the order in which they went in. */
  lemma {:induction false} TiedInserts<T(!new)>(le: (T, T) -> bool, x: T, y: T, s: seq<T>)
    requires TotalPreorder(le) && le(x, y) && le(y, x) && x != y
    ensures Insert(le, x, Insert(le, y, s)) != Insert(le, y, Insert(le, x, s))
  {
    if s == [] || le(y, s[0]) {
      assert s != [] ==> le(x, s[0]);
      assert Insert(le, x, [y] + s)[0] == x && Insert(le, y, [x] + s)[0] == y;
    } else {
      assert !le(x, s[0]);
      TiedInserts(le, x, y, s[1..]);
      InsertAfter(le, x, s[0], Insert(le, y, s[1..]));
      InsertAfter(le, y, s[0], Insert(le, x, s[1..]));
      assert Insert(le, x, Insert(le, y, s))[1..] == Insert(le, x, Insert(le, y, s[1..]));
      assert Insert(le, y, Insert(le, x, s))[1..] == Insert(le, y, Insert(le, x, s[1..]));
    }
  }

  lemma InsertAfter<T>(le: (T, T) -> bool, x: T, head: T, tail: seq<T>)
    requires !le(x, head)
    ensures Insert(le, x, [head] + tail) == [head] + Insert(le, x, tail)
  {
    assert ([head] + tail)[1..] == tail;
  }

  lemma SortCons<T>(le: (T, T) -> bool, x: T, s: seq<T>)
    ensures Sort(le, [x] + s) == Insert(le, x, Sort(le, s))
  {
    assert ([x] + s)[1..] == s;
  }

  // ----- Sorting what a function makes of the elements ---------------------------------------

  lemma FrontTwo<A, B>(le: (B, B) -> bool, f: A -> B, x: A, y: A, rest: seq<A>)
    ensures Sort(le, Map(f, [x] + ([y] + rest))) == Insert(le, f(x), Insert(le, f(y), Sort(le, Map(f, rest))))
  {
    MapCons(f, x, [y] + rest);
    MapCons(f, y, rest);
    SortCons(le, f(x), [f(y)] + Map(f, rest));
    SortCons(le, f(y), Map(f, rest));
  }

  /** A tie between different images comes out in the order in which it went in. */
  lemma TieShows<A, B(!new)>(le: (B, B) -> bool, f: A -> B, a: seq<A>) returns (b: seq<A>, c: seq<A>)
    requires TotalPreorder(le) && !NoTies(le, Map(f, a))
    ensures multiset(b) == multiset(a) && multiset(c) == multiset(a)
    ensures Sort(le, Map(f, b)) != Sort(le, Map(f, c))
  {
    var i, j := TiedPair(le, f, a);
    var rest := a[..i] + a[i + 1..j] + a[j + 1..];
    TakeTwo(a, i, j);
    FrontTwo(le, f, a[i], a[j], rest);
    FrontTwo(le, f, a[j], a[i], rest);
    TiedInserts(le, f(a[i]), f(a[j]), Sort(le, Map(f, rest)));
    b, c := [a[i]] + ([a[j]] + rest), [a[j]] + ([a[i]] + rest);
  }

  lemma PositionOf<B>(s: seq<B>, x: B) returns (k: nat)
    requires x in s
    ensures k < |s| && s[k] == x
  {
    k :| 0 <= k < |s| && s[k] == x;
  }

  lemma {:induction false} TiedPair<A, B>(le: (B, B) -> bool, f: A -> B, a: seq<A>) returns (i: nat, j: nat)
    requires !NoTies(le, Map(f, a))
    ensures i < j < |a| && le(f(a[i]), f(a[j])) && le(f(a[j]), f(a[i])) && f(a[i]) != f(a[j])
  {
    var s := Map(f, a);
    var x, y :| x in s && y in s && le(x, y) && le(y, x) && x != y;
    var k := PositionOf(s, x);
    var l := PositionOf(s, y);
    i, j := if k < l then k else l, if k < l then l else k;
  }

  /** The sorted images do not depend on the order of the input. */
  ghost predicate MappedForgets<A(!new), B>(le: (B, B) -> bool, f: A -> B, a: seq<A>) {
    forall b | multiset(b) == multiset(a) :: Sort(le, Map(f, b)) == Sort(le, Map(f, a))
  }

  /** The sorted images do not depend on the order of the input exactly when no two different images tie. */
  lemma {:induction false} MappedForgetsOrderExactly<A(!new), B(!new)>(le: (B, B) -> bool, f: A -> B, a: seq<A>)
    requires TotalPreorder(le)
    ensures MappedForgets(le, f, a) <==> NoTies(le, Map(f, a))
  {
    if NoTies(le, Map(f, a)) {
      forall b | multiset(b) == multiset(a) ensures Sort(le, Map(f, b)) == Sort(le, Map(f, a)) {
        MapPermutation(f, a, b);
        SortForgetsOrder(le, Map(f, a), Map(f, b));
      }
    } else {
      var b, c := TieShows(le, f, a);
      assert Sort(le, Map(f, b)) != Sort(le, Map(f, c));
    }
  }

  lemma {:induction false} MapInsert<A, B>(le: (A, A) -> bool, le': (B, B) -> bool, f: A -> B, x: A, s: seq<A>)
    requires forall x, y :: le(x, y) <==> le'(f(x), f(y))
    ensures Map(f, Insert(le, x, s)) == Insert(le', f(x), Map(f, s))
  {
    if s == [] || le(x, s[0]) {
      MapCons(f, x, s);
    } else {
      MapInsert(le, le', f, x, s[1..]);
      MapCons(f, s[0], Insert(le, x, s[1..]));
      assert Map(f, s)[1..] == Map(f, s[1..]);
    }
  }

  /** Where a function keeps the order, sorting before or after it is the same. */
  lemma {:induction false} MapSort<A, B>(le: (A, A) -> bool, le': (B, B) -> bool, f: A -> B, s: seq<A>)
    requires forall x, y :: le(x, y) <==> le'(f(x), f(y))
    ensures Map(f, Sort(le, s)) == Sort(le', Map(f, s))
  {
    if s != [] {
      MapSort(le, le', f, s[1..]);
      MapInsert(le, le', f, s[0], Sort(le, s[1..]));
      assert Map(f, s)[1..] == Map(f, s[1..]);
    }
  }
}
