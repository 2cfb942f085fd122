/** When a separator-joined text determines its parts. */
module Joins {

  predicate Free(s: string, sep: char) {
    sep !in s
  }

  /** The part before the first separator is determined if it is free of separators. */
  lemma {:induction false} JoinSplits(a: string, x: string, b: string, y: string, sep: char)
    requires Free(a, sep) && Free(b, sep)
    requires a + [sep] + x == b + [sep] + y
    ensures a == b && x == y
  {
    var s, t := a + [sep] + x, b + [sep] + y;
    assert forall i | 0 <= i < |a| :: s[i] == a[i] && a[i] in a;
    assert forall i | 0 <= i < |b| :: t[i] == b[i] && b[i] in b;
    assert s[|a|] == sep && t[|b|] == sep;
    assert a == s[..|a|] == t[..|b|] == b;
    assert x == s[|a| + 1..] == t[|b| + 1..] == y;
  }

  /** How many separators a text holds. */
  function Seps(s: string, sep: char): nat {
    if s == "" then 0 else (if s[0] == sep then 1 else 0) + Seps(s[1..], sep)
  }

  lemma {:induction false} SepsConcat(a: string, b: string, sep: char)
    ensures Seps(a + b, sep) == Seps(a, sep) + Seps(b, sep)
  {
    if a == "" {
      assert a + b == b;
    } else {
      SepsConcat(a[1..], b, sep);
      assert (a + b)[1..] == a[1..] + b;
    }
  }

  /** A text joined from two parts holds the separators of both, and one more. */
  lemma SepsJoin(a: string, b: string, sep: char)
    ensures Seps(a + [sep] + b, sep) == Seps(a, sep) + 1 + Seps(b, sep)
  {
    SepsConcat(a + [sep], b, sep);
    SepsConcat(a, [sep], sep);
    assert [sep][1..] == "" && Seps("", sep) == 0;
  }

  lemma {:induction false} FreeHasNone(s: string, sep: char)
    ensures Free(s, sep) <==> Seps(s, sep) == 0
  {
    if s != "" {
      FreeHasNone(s[1..], sep);
      assert s == [s[0]] + s[1..];
    }
  }

  /** The text before the first separator, or all of it. */
  function UpTo(s: string, sep: char): string {
    if s == "" || s[0] == sep then "" else [s[0]] + UpTo(s[1..], sep)
  }

  lemma {:induction false} UpToJoin(a: string, b: string, sep: char)
    requires Free(a, sep)
    ensures UpTo(a + [sep] + b, sep) == a
  {
    var s := a + [sep] + b;
    if a == "" {
      assert s[0] == sep;
    } else {
      UpToJoin(a[1..], b, sep);
      assert s[1..] == a[1..] + [sep] + b;
      assert a == [a[0]] + a[1..];
    }
  }

  /** What comes before the first separator does not depend on what follows a separator. */
  lemma {:induction false} UpToPrefix(a: string, b: string, sep: char)
    ensures UpTo(a + [sep] + b, sep) == UpTo(a, sep)
  {
    var s := a + [sep] + b;
    if a == "" {
      assert s[0] == sep;
    } else {
      UpToPrefix(a[1..], b, sep);
      assert s[1..] == a[1..] + [sep] + b;
    }
  }

  lemma {:induction false} CutAtFirst(s: string, sep: char) returns (rest: string)
    requires Seps(s, sep) > 0
    ensures s == UpTo(s, sep) + [sep] + rest && Seps(rest, sep) == Seps(s, sep) - 1
  {
    if s[0] == sep {
      rest := s[1..];
      assert UpTo(s, sep) == "";
      assert s == [sep] + rest;
    } else {
      rest := CutAtFirst(s[1..], sep);
      assert s == [s[0]] + s[1..];
    }
  }

  /** A text that is not free of separators falls into two parts around one. */
  lemma CutAnywhere(s: string, sep: char) returns (a: string, b: string)
    requires !Free(s, sep)
    ensures s == a + [sep] + b
  {
    var i :| 0 <= i < |s| && s[i] == sep;
    a, b := s[..i], s[i + 1..];
  }

  /** The part after the last separator is determined too. */
  lemma JoinSplitsLast(a: string, x: string, b: string, y: string, sep: char)
    requires Free(x, sep) && Free(y, sep)
    requires a + [sep] + x == b + [sep] + y
    ensures a == b && x == y
  {
    var s := a + [sep] + x;
    assert s[|a|] == sep && s[|b|] == sep;
    assert forall i | |a| < i < |s| :: s[i] == x[i - |a| - 1] && s[i] in x;
    assert forall i | |b| < i < |s| :: s[i] == y[i - |b| - 1] && s[i] in y;
    assert a == s[..|a|] && b == s[..|b|];
    assert x == s[|a| + 1..] && y == s[|b| + 1..];
  }
}
