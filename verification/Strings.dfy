/** Splitting and joining on a separator, as `str.split(c)` and `c.join(parts)` do. */
module Strings {
  /** `s.split(c)`: always at least one part. */
  function Split<T(==)>(s: seq<T>, c: T): (parts: seq<seq<T>>)
    ensures |parts| >= 1
  {
    if s == [] then [[]]
    else
      var rest := Split(s[1..], c);
      if s[0] == c then [[]] + rest else [[s[0]] + rest[0]] + rest[1..]
  }

  /** `sep.join(parts)` */
  function Join<T>(parts: seq<seq<T>>, sep: seq<T>): seq<T> {
    if parts == [] then []
    else if |parts| == 1 then parts[0]
    else parts[0] + sep + Join(parts[1..], sep)
  }

  function JoinWith<T>(parts: seq<seq<T>>, c: T): seq<T> {
    Join(parts, [c])
  }

  lemma {:induction false} SplitNoSeparator<T>(s: seq<T>, c: T)
    requires c !in s
    ensures Split(s, c) == [s]
  {
    if s != [] {
      SplitNoSeparator(s[1..], c);
      assert [s[0]] + s[1..] == s;
    }
  }

  lemma {:induction false} SplitFirst<T>(s: seq<T>, c: T, rest: seq<T>)
    requires c !in s
    ensures Split(s + [c] + rest, c) == [s] + Split(rest, c)
  {
    var t := s + [c] + rest;
    if s == [] {
      assert t[0] == c && t[1..] == rest;
    } else {
      SplitFirst(s[1..], c, rest);
      assert t[1..] == s[1..] + [c] + rest && t[0] == s[0] && t[0] != c;
      assert [s[0]] + s[1..] == s;
    }
  }

  lemma SplitCons<T>(x: T, t: seq<T>, c: T)
    ensures var rest := Split(t, c);
            Split([x] + t, c) == if x == c then [[]] + rest else [[x] + rest[0]] + rest[1..]
  {
    assert ([x] + t)[0] == x && ([x] + t)[1..] == t;
  }

  lemma FirstOfTwo<T>(x: T, p: seq<seq<T>>, q: seq<seq<T>>)
    requires p != []
    ensures [[x] + (p + q)[0]] + (p + q)[1..] == ([[x] + p[0]] + p[1..]) + q
    ensures [[]] + (p + q) == ([[]] + p) + q
  {
  }

  lemma {:induction false} SplitAppend<T>(a: seq<T>, c: T, b: seq<T>)
    ensures Split(a + [c] + b, c) == Split(a, c) + Split(b, c)
  {
    if a == [] {
      assert a + [c] + b == [c] + b;
      SplitCons(c, b, c);
    } else {
      var x, rest := a[0], a[1..];
      SplitAppend(rest, c, b);
      assert a + [c] + b == [x] + (rest + [c] + b) && a == [x] + rest;
      SplitCons(x, rest + [c] + b, c);
      SplitCons(x, rest, c);
      FirstOfTwo(x, Split(rest, c), Split(b, c));
    }
  }

  /** Splitting undoes joining when no part holds the separator. */
  lemma {:induction false} SplitJoin<T>(parts: seq<seq<T>>, c: T)
    requires |parts| >= 1
    requires forall p | p in parts :: c !in p
    ensures Split(JoinWith(parts, c), c) == parts
  {
    if |parts| == 1 {
      SplitNoSeparator(parts[0], c);
    } else {
      SplitJoin(parts[1..], c);
      SplitFirst(parts[0], c, JoinWith(parts[1..], c));
    }
  }

  lemma {:induction false} JoinSplit<T>(s: seq<T>, c: T)
    ensures JoinWith(Split(s, c), c) == s
  {
    if s != [] {
      JoinSplit(s[1..], c);
      var rest := Split(s[1..], c);
      if s[0] == c {
        assert ([[]] + rest)[1..] == rest;
        assert s == [] + [c] + s[1..];
      } else {
        assert ([[s[0]] + rest[0]] + rest[1..])[1..] == rest[1..];
        assert s == [s[0]] + s[1..];
      }
    }
  }

  /** The position of the first `c`, or the length when there is none. */
  function IndexOf<T(==)>(s: seq<T>, c: T): (i: nat)
    ensures i <= |s| && c !in s[..i] && (i < |s| ==> s[i] == c)
  {
    if s == [] || s[0] == c then 0 else 1 + IndexOf(s[1..], c)
  }

  lemma {:induction false} IndexOfFirst<T>(a: seq<T>, c: T, b: seq<T>)
    requires c !in a
    ensures IndexOf(a + [c] + b, c) == |a|
  {
    if a != [] {
      assert (a + [c] + b)[1..] == a[1..] + [c] + b;
      IndexOfFirst(a[1..], c, b);
    }
  }

  lemma {:induction false} IndexOfAtMost<T>(s: seq<T>, c: T, j: nat)
    requires j < |s| && s[j] == c
    ensures IndexOf(s, c) <= j
  {
    if s[0] != c {
      IndexOfAtMost(s[1..], c, j - 1);
    }
  }

  lemma IndexOfNone<T>(a: seq<T>, c: T)
    requires c !in a
    ensures IndexOf(a, c) == |a|
  {
  }

  // ----- the order of strings -----

  /** `a <= b`, character by character. */
  predicate LexLe(a: string, b: string) {
    a == [] || (b != [] && (a[0] < b[0] || (a[0] == b[0] && LexLe(a[1..], b[1..]))))
  }

  /** It is decided where the two first differ; what is the start of another text comes before it. */
  lemma {:induction false} LexDecided(p: string, x: string, y: string)
    requires x == "" || (y != "" && x[0] != y[0])
    ensures LexLe(p + x, p + y) <==> x == "" || x[0] < y[0]
  {
    if p == "" {
      assert p + x == x && p + y == y;
    } else {
      LexDecided(p[1..], x, y);
      assert (p + x)[1..] == p[1..] + x && (p + y)[1..] == p[1..] + y;
    }
  }

  lemma {:induction false} LexTotal(a: string, b: string)
    ensures LexLe(a, b) || LexLe(b, a)
    ensures LexLe(a, b) && LexLe(b, a) ==> a == b
  {
    if a != [] && b != [] {
      LexTotal(a[1..], b[1..]);
      assert a == [a[0]] + a[1..] && b == [b[0]] + b[1..];
    }
  }

  lemma {:induction false} LexTransitive(a: string, b: string, c: string)
    requires LexLe(a, b) && LexLe(b, c)
    ensures LexLe(a, c)
  {
    if a != [] && a[0] == b[0] == c[0] {
      LexTransitive(a[1..], b[1..], c[1..]);
    }
  }
}
