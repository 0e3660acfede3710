/** The option type, a stable sort like Python's `sorted`, and slicing into chunks. */
module Common {
  datatype Option<+T> = None | Some(value: T)
}

module Sequences {
  ghost predicate TotalPreorder<T(!new)>(le: (T, T) -> bool) {
    && (forall a, b :: le(a, b) || le(b, a))
    && (forall a, b, c :: le(a, b) && le(b, c) ==> le(a, c))
  }

  ghost predicate SortedBy<T>(le: (T, T) -> bool, s: seq<T>) {
    forall i, j | 0 <= i < j < |s| :: le(s[i], s[j])
  }

  ghost predicate DistinctBy<T, K>(key: T -> K, s: seq<T>) {
    forall i, j | 0 <= i < j < |s| :: key(s[i]) != key(s[j])
  }

  // ----- sorting -----

  /** Puts `x` before the first element it is not greater than, so equal elements keep their order. */
  function Insert<T(==,!new)>(le: (T, T) -> bool, x: T, s: seq<T>): (r: seq<T>)
    ensures |r| == |s| + 1
    ensures multiset(r) == multiset(s) + multiset{x}
    ensures forall y :: y in r <==> y == x || y in s
  {
    if s == [] then [x]
    else if le(x, s[0]) then [x] + s
    else
      assert s == [s[0]] + s[1..];
      [s[0]] + Insert(le, x, s[1..])
  }

  function Sort<T(==,!new)>(le: (T, T) -> bool, s: seq<T>): (r: seq<T>)
    ensures |r| == |s|
    ensures multiset(r) == multiset(s)
    ensures forall y :: y in r <==> y in s
  {
    if s == [] then []
    else
      assert s == [s[0]] + s[1..];
      Insert(le, s[0], Sort(le, s[1..]))
  }

  lemma {:induction false} InsertSorted<T(!new)>(le: (T, T) -> bool, x: T, s: seq<T>)
    requires TotalPreorder(le) && SortedBy(le, s)
    ensures SortedBy(le, Insert(le, x, s))
  {
    if s != [] && !le(x, s[0]) {
      InsertSorted(le, x, s[1..]);
      var t := Insert(le, x, s[1..]);
      forall j | 0 <= j < |t| ensures le(s[0], t[j]) {
        assert t[j] in t;
      }
    }
  }

  lemma {:induction false} SortSorted<T(!new)>(le: (T, T) -> bool, s: seq<T>)
    requires TotalPreorder(le)
    ensures SortedBy(le, Sort(le, s))
  {
    if s != [] {
      SortSorted(le, s[1..]);
      InsertSorted(le, s[0], Sort(le, s[1..]));
    }
  }

  lemma {:induction false} InsertDistinct<T(!new), K>(le: (T, T) -> bool, key: T -> K, x: T, s: seq<T>)
    requires DistinctBy(key, s)
    requires forall i | 0 <= i < |s| :: key(s[i]) != key(x)
    ensures DistinctBy(key, Insert(le, x, s))
  {
    if s != [] && !le(x, s[0]) {
      InsertDistinct(le, key, x, s[1..]);
      var t := Insert(le, x, s[1..]);
      forall j | 0 <= j < |t| ensures key(s[0]) != key(t[j]) {
        assert t[j] in t;
      }
    }
  }

  lemma {:induction false} SortDistinct<T(!new), K>(le: (T, T) -> bool, key: T -> K, s: seq<T>)
    requires DistinctBy(key, s)
    ensures DistinctBy(key, Sort(le, s))
  {
    if s != [] {
      SortDistinct(le, key, s[1..]);
      var t := Sort(le, s[1..]);
      forall i | 0 <= i < |t| ensures key(t[i]) != key(s[0]) {
        assert t[i] in t;
      }
      InsertDistinct(le, key, s[0], t);
    }
  }

  lemma FirstIsLeast<T(!new)>(le: (T, T) -> bool, a: seq<T>, b: seq<T>)
    requires forall x :: le(x, x)
    requires SortedBy(le, b) && multiset(a) == multiset(b) && |a| > 0 && |b| > 0
    ensures le(b[0], a[0])
  {
    assert a[0] in multiset(b);
    var i :| 0 <= i < |b| && b[i] == a[0];
  }

  lemma DropFirst<T>(a: seq<T>)
    requires |a| > 0
    ensures multiset(a[1..]) == multiset(a) - multiset{a[0]}
  {
    assert a == [a[0]] + a[1..];
  }

  /** A sorted sequence is determined by its elements when the order is antisymmetric. */
  lemma {:induction false} SortedUnique<T(!new)>(le: (T, T) -> bool, a: seq<T>, b: seq<T>)
    requires forall x, y :: le(x, y) && le(y, x) ==> x == y
    requires forall x :: le(x, x)
    requires SortedBy(le, a) && SortedBy(le, b) && multiset(a) == multiset(b)
    ensures a == b
  {
    assert |a| == |multiset(a)| == |multiset(b)| == |b|;
    if a != [] {
      FirstIsLeast(le, a, b);
      FirstIsLeast(le, b, a);
      DropFirst(a);
      DropFirst(b);
      SortedUnique(le, a[1..], b[1..]);
      assert a == [a[0]] + a[1..] && b == [b[0]] + b[1..];
    }
  }

  lemma AppendTail<T>(a: seq<T>, b: seq<T>)
    requires a != []
    ensures (a + b)[0] == a[0] && (a + b)[1..] == a[1..] + b
  {
  }

  lemma Associative<T>(a: seq<T>, b: seq<T>, c: seq<T>)
    ensures (a + b) + c == a + (b + c)
  {
  }

  // ----- filtering -----

  function Filter<T(!new)>(p: T -> bool, s: seq<T>): (r: seq<T>)
    ensures forall x :: x in r <==> x in s && p(x)
  {
    if s == [] then [] else (if p(s[0]) then [s[0]] else []) + Filter(p, s[1..])
  }

  lemma {:induction false} FilterSnoc<T(!new)>(p: T -> bool, s: seq<T>, x: T)
    ensures Filter(p, s + [x]) == Filter(p, s) + if p(x) then [x] else []
  {
    if s == [] {
      assert s + [x] == [x];
    } else {
      FilterSnoc(p, s[1..], x);
      AppendTail(s, [x]);
      Associative(if p(s[0]) then [s[0]] else [], Filter(p, s[1..]), if p(x) then [x] else []);
    }
  }

  lemma {:induction false} FilterNone<T(!new)>(p: T -> bool, s: seq<T>)
    requires forall x | x in s :: !p(x)
    ensures Filter(p, s) == []
  {
    if s != [] {
      FilterNone(p, s[1..]);
    }
  }

  lemma {:induction false} FilterDistinct<T(!new), K>(p: T -> bool, key: T -> K, s: seq<T>)
    requires DistinctBy(key, s)
    ensures DistinctBy(key, Filter(p, s))
  {
    if s != [] {
      FilterDistinct(p, key, s[1..]);
      var t := Filter(p, s[1..]);
      forall j | 0 <= j < |t| ensures key(s[0]) != key(t[j]) {
        assert t[j] in t && t[j] in s[1..];
      }
    }
  }

  lemma {:induction false} FilterCount<T(!new)>(p: T -> bool, s: seq<T>, x: T)
    ensures multiset(Filter(p, s))[x] == if p(x) then multiset(s)[x] else 0
  {
    if s != [] {
      FilterCount(p, s[1..], x);
      assert s == [s[0]] + s[1..];
    }
  }

  lemma {:induction false} FilterSorted<T(!new)>(le: (T, T) -> bool, p: T -> bool, s: seq<T>)
    requires SortedBy(le, s)
    ensures SortedBy(le, Filter(p, s))
  {
    if s != [] {
      var t := Filter(p, s[1..]);
      FilterSorted(le, p, s[1..]);
      forall j | 0 <= j < |t| ensures le(s[0], t[j]) {
        assert t[j] in t && t[j] in s[1..];
      }
    }
  }

  // ----- chunks -----

  /** `[s[i : i + size] for i in range(0, len(s), size)]` */
  function Chunks<T>(s: seq<T>, size: nat): (r: seq<seq<T>>)
    requires size > 0
    ensures forall c | c in r :: 0 < |c| <= size
  {
    if s == [] then []
    else if |s| <= size then [s]
    else [s[..size]] + Chunks(s[size..], size)
  }

  function Flatten<T>(ss: seq<seq<T>>): seq<T> {
    if ss == [] then [] else ss[0] + Flatten(ss[1..])
  }

  lemma {:induction false} FlattenChunks<T>(s: seq<T>, size: nat)
    requires size > 0
    ensures Flatten(Chunks(s, size)) == s
  {
    if |s| > size {
      FlattenChunks(s[size..], size);
      assert s == s[..size] + s[size..];
    } else if s != [] {
      assert Flatten([s]) == s + Flatten([]);
    }
  }

  lemma {:induction false} FlattenAppend<T>(a: seq<seq<T>>, b: seq<seq<T>>)
    ensures Flatten(a + b) == Flatten(a) + Flatten(b)
  {
    if a == [] {
      assert a + b == b;
    } else {
      FlattenAppend(a[1..], b);
      AppendTail(a, b);
      Associative(a[0], Flatten(a[1..]), Flatten(b));
    }
  }

  lemma {:induction false} FlattenMember<T>(ss: seq<seq<T>>, x: T)
    requires x in Flatten(ss)
    ensures exists k :: 0 <= k < |ss| && x in ss[k]
  {
    if x !in ss[0] {
      FlattenMember(ss[1..], x);
      var k :| 0 <= k < |ss[1..]| && x in ss[1..][k];
      assert x in ss[k + 1];
    }
  }

  lemma FlattenPrefix<T>(ss: seq<seq<T>>, k: nat)
    requires k <= |ss|
    ensures Flatten(ss[..k]) <= Flatten(ss)
  {
    FlattenAppend(ss[..k], ss[k..]);
    assert ss == ss[..k] + ss[k..];
  }

  lemma {:induction false} ChunkSubset<T>(s: seq<T>, size: nat, i: nat)
    requires size > 0 && i < |Chunks(s, size)|
    ensures forall a | a in Chunks(s, size)[i] :: a in s
  {
    if |s| > size && i > 0 {
      ChunkSubset(s[size..], size, i - 1);
    }
  }

  /** If R holds between earlier and later elements of `s`, it holds between earlier and later chunks. */
  lemma {:induction false} ChunksOrdered<T>(R: (T, T) -> bool, s: seq<T>, size: nat, i: nat, j: nat)
    requires size > 0 && SortedBy(R, s) && i < j < |Chunks(s, size)|
    ensures forall a, b | a in Chunks(s, size)[i] && b in Chunks(s, size)[j] :: R(a, b)
  {
    var head, tail := s[..size], s[size..];
    if i == 0 {
      ChunkSubset(tail, size, j - 1);
      assert forall a, b | a in head && b in tail :: R(a, b);
    } else {
      ChunksOrdered(R, tail, size, i - 1, j - 1);
    }
  }

  function Min(a: int, b: int): int {
    if a < b then a else b
  }

  /** Every chunk but the last is full: chunk `i` is the `i`-th slice of `size` elements, and there are as many as it takes. */
  ghost predicate CutInto<T>(chunks: seq<seq<T>>, s: seq<T>, size: nat) {
    && |chunks| * size < |s| + size && |s| <= |chunks| * size
    && forall i | 0 <= i < |chunks| :: IsSlice(chunks[i], s, size, i)
  }

  ghost predicate IsSlice<T>(chunk: seq<T>, s: seq<T>, size: nat, i: nat) {
    0 <= i * size < |s| && chunk == s[i * size..Min(i * size + size, |s|)]
  }

  lemma SliceOfDrop<T>(s: seq<T>, k: nat, lo: nat, hi: nat)
    requires k <= |s| && lo <= hi <= |s| - k
    ensures s[k..][lo..hi] == s[k + lo..k + hi]
  {
  }

  lemma OneTimesMore(n: nat, size: nat)
    ensures (n + 1) * size == n * size + size
  {
  }

  lemma SliceOfRest<T>(chunk: seq<T>, s: seq<T>, size: nat, i: nat)
    requires size <= |s| && IsSlice(chunk, s[size..], size, i)
    ensures IsSlice(chunk, s, size, i + 1)
  {
    OneTimesMore(i, size);
    SliceOfDrop(s, size, i * size, Min(i * size + size, |s| - size));
  }

  lemma FirstSlice<T>(s: seq<T>, size: nat)
    requires s != [] && size > 0
    ensures IsSlice(s[..Min(size, |s|)], s, size, 0)
  {
    assert 0 * size == 0;
  }

  lemma {:induction false} ChunksCut<T>(s: seq<T>, size: nat)
    requires size > 0
    ensures CutInto(Chunks(s, size), s, size)
  {
    if |s| > size {
      var rest := Chunks(s[size..], size);
      ChunksCut(s[size..], size);
      FirstSlice(s, size);
      CutMore(s, size, rest);
    } else if s != [] {
      FirstSlice(s, size);
      assert s[..|s|] == s;
      assert 1 * size == size;
    }
  }

  lemma CutMore<T>(s: seq<T>, size: nat, rest: seq<seq<T>>)
    requires size < |s| && IsSlice(s[..size], s, size, 0) && CutInto(rest, s[size..], size)
    ensures CutInto([s[..size]] + rest, s, size)
  {
    var chunks := [s[..size]] + rest;
    OneTimesMore(|rest|, size);
    forall i | 0 <= i < |chunks| ensures IsSlice(chunks[i], s, size, i) {
      if i > 0 {
        SliceOfRest(rest[i - 1], s, size, i - 1);
      }
    }
  }

  /** The sort is stable: elements that come equal stay in the order they had. */
  lemma FilterCons<T(!new)>(p: T -> bool, x: T, s: seq<T>)
    ensures Filter(p, [x] + s) == (if p(x) then [x] else []) + Filter(p, s)
  {
    assert ([x] + s)[1..] == s;
  }

  lemma {:induction false} InsertStable<T(!new)>(le: (T, T) -> bool, p: T -> bool, x: T, s: seq<T>)
    requires forall a, b | p(a) && p(b) :: le(a, b)
    ensures Filter(p, Insert(le, x, s)) == (if p(x) then [x] else []) + Filter(p, s)
  {
    if s == [] || le(x, s[0]) {
      FilterCons(p, x, s);
      assert s == [] ==> [x] == [x] + s;
    } else {
      InsertStable(le, p, x, s[1..]);
      FilterCons(p, s[0], Insert(le, x, s[1..]));
      assert !(p(x) && p(s[0]));
    }
  }

  lemma {:induction false} SortStable<T(!new)>(le: (T, T) -> bool, p: T -> bool, s: seq<T>)
    requires forall a, b | p(a) && p(b) :: le(a, b)
    ensures Filter(p, Sort(le, s)) == Filter(p, s)
  {
    if s != [] {
      SortStable(le, p, s[1..]);
      InsertStable(le, p, s[0], Sort(le, s[1..]));
    }
  }

  /** One turn of the chunk loop at offset `i`. */
  lemma ChunksStep<T>(s: seq<T>, size: nat, i: nat)
    requires size > 0 && i < |s|
    ensures var hi := if i + size <= |s| then i + size else |s|;
            Chunks(s[i..], size) == [s[i..hi]] + Chunks(s[hi..], size)
  {
    var t := s[i..];
    if i + size < |s| {
      assert t[..size] == s[i..i + size] && t[size..] == s[i + size..];
    } else {
      assert s[|s|..] == [] && s[i..|s|] == t;
    }
  }
}
