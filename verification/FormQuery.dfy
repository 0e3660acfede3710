/** Query strings as ordered dictionaries: `dict(parse_qsl(q))` and `urlencode(d)`. */
module FormQuery {
  import opened Common
  import opened PercentEncoding
  import opened Strings

  datatype Pair = Pair(key: Text, value: Text)

  // ----- dictionaries keep the order in which keys first came in -----

  ghost predicate DistinctKeys(d: seq<Pair>) {
    forall i, j | 0 <= i < j < |d| :: d[i].key != d[j].key
  }

  predicate HasKey(d: seq<Pair>, k: Text) {
    exists p | p in d :: p.key == k
  }

  function Put(d: seq<Pair>, k: Text, v: Text): seq<Pair> {
    if d == [] then [Pair(k, v)]
    else if d[0].key == k then [Pair(k, v)] + d[1..]
    else [d[0]] + Put(d[1..], k, v)
  }

  function Lookup(d: seq<Pair>, k: Text): Option<Text> {
    if d == [] then None else if d[0].key == k then Some(d[0].value) else Lookup(d[1..], k)
  }

  function Remove(d: seq<Pair>, k: Text): seq<Pair> {
    if d == [] then [] else (if d[0].key == k then [] else [d[0]]) + Remove(d[1..], k)
  }

  function PutAll(d: seq<Pair>, pairs: seq<Pair>): seq<Pair>
    decreases pairs
  {
    if pairs == [] then d else PutAll(Put(d, pairs[0].key, pairs[0].value), pairs[1..])
  }

  function ToDict(pairs: seq<Pair>): seq<Pair> {
    PutAll([], pairs)
  }

  // ----- the two conversions -----

  /** A part without `=`, or with nothing after the first one, is dropped. */
  function ParsePart(part: Text): Option<Pair> {
    var i := IndexOf(part, '=');
    if i + 1 >= |part| then None else Some(Pair(Unquote(part[..i]), Unquote(part[i + 1..])))
  }

  function ParseParts(parts: seq<Text>): seq<Pair> {
    if parts == [] then []
    else (match ParsePart(parts[0]) case None => [] case Some(p) => [p]) + ParseParts(parts[1..])
  }

  function ParseQsl(q: Text): seq<Pair> {
    ParseParts(Split<Byte>(q, '&'))
  }

  function EncodePair(p: Pair): Text {
    Quote(p.key) + ['='] + Quote(p.value)
  }

  function EncodePairs(d: seq<Pair>): (r: seq<Text>)
    ensures |r| == |d| && forall i | 0 <= i < |d| :: r[i] == EncodePair(d[i])
  {
    if d == [] then [] else [EncodePair(d[0])] + EncodePairs(d[1..])
  }

  function UrlEncode(d: seq<Pair>): Text {
    JoinWith<Byte>(EncodePairs(d), '&')
  }

  // ----- dictionary laws -----

  lemma {:induction false} PutLaws(d: seq<Pair>, k: Text, v: Text)
    ensures Lookup(Put(d, k, v), k) == Some(v)
    ensures Remove(Put(d, k, v), k) == Remove(d, k)
    ensures forall p :: p in Put(d, k, v) ==> p in d || p == Pair(k, v)
    ensures forall p :: p in Put(d, k, v) && p.key != k ==> p in d
  {
    if d != [] {
      PutLaws(d[1..], k, v);
      assert d == [d[0]] + d[1..];
    }
  }

  lemma {:induction false} PutDistinct(d: seq<Pair>, k: Text, v: Text)
    requires DistinctKeys(d)
    ensures DistinctKeys(Put(d, k, v))
  {
    if d != [] && d[0].key != k {
      var t := Put(d[1..], k, v);
      PutDistinct(d[1..], k, v);
      PutLaws(d[1..], k, v);
      forall j | 0 <= j < |t| ensures t[j].key != d[0].key {
        assert t[j] in t;
      }
    }
  }

  lemma {:induction false} PutNew(d: seq<Pair>, k: Text, v: Text)
    requires !HasKey(d, k)
    ensures Put(d, k, v) == d + [Pair(k, v)]
  {
    if d != [] {
      assert d[0] in d;
      PutNew(d[1..], k, v);
    }
  }

  lemma {:induction false} RemoveLaws(d: seq<Pair>, k: Text)
    ensures !HasKey(Remove(d, k), k)
    ensures forall p :: p in Remove(d, k) ==> p in d
  {
    if d != [] {
      RemoveLaws(d[1..], k);
    }
  }

  lemma {:induction false} RemoveDistinct(d: seq<Pair>, k: Text)
    requires DistinctKeys(d)
    ensures DistinctKeys(Remove(d, k))
  {
    if d != [] {
      RemoveDistinct(d[1..], k);
      RemoveLaws(d[1..], k);
      var t := Remove(d[1..], k);
      forall j | 0 <= j < |t| ensures t[j].key != d[0].key {
        assert t[j] in t && t[j] in d[1..];
      }
    }
  }

  lemma {:induction false} RemoveAbsent(d: seq<Pair>, k: Text)
    requires !HasKey(d, k)
    ensures Remove(d, k) == d && Lookup(d, k) == None
  {
    if d != [] {
      assert d[0] in d;
      RemoveAbsent(d[1..], k);
      assert d == [d[0]] + d[1..];
    }
  }

  ghost predicate NoBlanks(d: seq<Pair>) {
    forall p | p in d :: p.value != []
  }

  function NonBlank(d: seq<Pair>): seq<Pair> {
    if d == [] then [] else (if d[0].value == [] then [] else [d[0]]) + NonBlank(d[1..])
  }

  lemma {:induction false} NonBlankAll(d: seq<Pair>)
    requires NoBlanks(d)
    ensures NonBlank(d) == d
  {
    if d != [] {
      assert d[0] in d;
      NonBlankAll(d[1..]);
      assert d == [d[0]] + d[1..];
    }
  }

  /** Writing a blank value and dropping the blanks removes the key. */
  lemma {:induction false} BlankIsRemoved(d: seq<Pair>, k: Text)
    requires NoBlanks(d) && DistinctKeys(d)
    ensures NonBlank(Put(d, k, [])) == Remove(d, k)
  {
    if d != [] {
      assert d[0] in d;
      if d[0].key == k {
        NonBlankAll(d[1..]);
        RemoveAbsent(d[1..], k);
        assert ([Pair(k, [])] + d[1..])[1..] == d[1..];
      } else {
        BlankIsRemoved(d[1..], k);
        assert Put(d, k, [])[1..] == Put(d[1..], k, []);
      }
    }
  }

  lemma {:induction false} PutAllLaws(d: seq<Pair>, pairs: seq<Pair>)
    requires DistinctKeys(d) && NoBlanks(d) && NoBlanks(pairs)
    ensures DistinctKeys(PutAll(d, pairs)) && NoBlanks(PutAll(d, pairs))
    decreases pairs
  {
    if pairs != [] {
      var p := pairs[0];
      assert p in pairs;
      PutDistinct(d, p.key, p.value);
      PutLaws(d, p.key, p.value);
      PutAllLaws(Put(d, p.key, p.value), pairs[1..]);
    }
  }

  lemma {:induction false} PutAllDistinct(d: seq<Pair>, pairs: seq<Pair>)
    requires DistinctKeys(d + pairs)
    ensures PutAll(d, pairs) == d + pairs
    decreases pairs
  {
    if pairs == [] {
      assert d + pairs == d;
    } else {
      var p := pairs[0];
      assert (d + pairs)[|d|] == p;
      assert !HasKey(d, p.key) by {
        forall i | 0 <= i < |d| ensures d[i].key != p.key {
          assert (d + pairs)[i] == d[i];
        }
      }
      PutNew(d, p.key, p.value);
      assert (d + [p]) + pairs[1..] == d + pairs;
      PutAllDistinct(d + [p], pairs[1..]);
    }
  }

  lemma ToDictDistinct(d: seq<Pair>)
    requires DistinctKeys(d)
    ensures ToDict(d) == d
  {
    assert [] + d == d;
    PutAllDistinct([], d);
  }

  // ----- parsing undoes encoding -----

  lemma UnquoteBlank(s: Text)
    ensures Unquote(s) == [] <==> s == []
  {
  }

  lemma ParsePartNoBlank(part: Text)
    ensures ParsePart(part).Some? ==> ParsePart(part).value.value != []
  {
    var i := IndexOf(part, '=');
    if i + 1 < |part| {
      UnquoteBlank(part[i + 1..]);
    }
  }

  lemma {:induction false} ParsePartsNoBlanks(parts: seq<Text>)
    ensures NoBlanks(ParseParts(parts))
  {
    if parts != [] {
      ParsePartNoBlank(parts[0]);
      ParsePartsNoBlanks(parts[1..]);
    }
  }

  lemma QuoteHasNo(s: Text, c: Byte)
    requires c in {'=', '&', '#', '?', '/'}
    ensures c !in Quote(s)
  {
    UnquoteQuote(s);
    NormalBytes(Quote(s));
  }

  lemma ParseEncodedPair(p: Pair)
    ensures ParsePart(EncodePair(p)) == if p.value == [] then None else Some(p)
    ensures '&' !in EncodePair(p) && '#' !in EncodePair(p)
  {
    var k, v, part := Quote(p.key), Quote(p.value), EncodePair(p);
    QuoteHasNo(p.key, '=');
    QuoteHasNo(p.key, '&');
    QuoteHasNo(p.value, '&');
    QuoteHasNo(p.key, '#');
    QuoteHasNo(p.value, '#');
    IndexOfFirst(k, '=', v);
    assert part[..|k|] == k && part[|k| + 1..] == v;
    UnquoteQuote(p.key);
    UnquoteQuote(p.value);
  }

  lemma {:induction false} ParseEncodedPairs(d: seq<Pair>)
    ensures ParseParts(EncodePairs(d)) == NonBlank(d)
  {
    if d != [] {
      ParseEncodedPair(d[0]);
      ParseEncodedPairs(d[1..]);
      assert EncodePairs(d)[1..] == EncodePairs(d[1..]);
    }
  }

  lemma SplitEncoded(d: seq<Pair>)
    requires d != []
    ensures Split<Byte>(UrlEncode(d), '&') == EncodePairs(d)
  {
    forall part | part in EncodePairs(d) ensures '&' !in part {
      var i :| 0 <= i < |d| && EncodePairs(d)[i] == part;
      ParseEncodedPair(d[i]);
    }
    SplitJoin<Byte>(EncodePairs(d), '&');
  }

  /** Reading back an encoded dictionary loses exactly its blank values. */
  lemma ParseEncode(d: seq<Pair>)
    ensures ParseQsl(UrlEncode(d)) == NonBlank(d)
  {
    if d != [] {
      SplitEncoded(d);
      ParseEncodedPairs(d);
    }
  }

  lemma {:induction false} JoinAvoids(parts: seq<Text>, sep: Byte, c: Byte)
    requires c != sep && forall part | part in parts :: c !in part
    ensures c !in JoinWith<Byte>(parts, sep)
  {
    if |parts| > 1 {
      JoinAvoids(parts[1..], sep, c);
    }
  }

  lemma EncodedHasNoHash(d: seq<Pair>)
    ensures '#' !in UrlEncode(d)
  {
    forall part | part in EncodePairs(d) ensures '#' !in part {
      var i :| 0 <= i < |d| && EncodePairs(d)[i] == part;
      ParseEncodedPair(d[i]);
    }
    JoinAvoids(EncodePairs(d), '&', '#');
  }

  // ----- canonical queries -----

  function RawKey(part: Text): Text {
    part[..IndexOf(part, '=')]
  }

  /** `key=value` with both sides in form encoding and something on the right. */
  predicate CanonicalPart(part: Text) {
    var i := IndexOf(part, '=');
    i + 1 < |part| && Normal(part[..i]) && Normal(part[i + 1..])
  }

  /** No parts at all, or canonical parts with distinct keys, none of them `reserved`. */
  ghost predicate CanonicalQuery(q: Text, reserved: Text) {
    q == [] ||
    var parts := Split<Byte>(q, '&');
    && (forall part | part in parts :: CanonicalPart(part) && RawKey(part) != Quote(reserved))
    && (forall i, j | 0 <= i < j < |parts| :: RawKey(parts[i]) != RawKey(parts[j]))
  }

  lemma EncodedPartCanonical(p: Pair)
    ensures RawKey(EncodePair(p)) == Quote(p.key)
    ensures p.value != [] ==> CanonicalPart(EncodePair(p))
  {
    var k, v, part := Quote(p.key), Quote(p.value), EncodePair(p);
    QuoteHasNo(p.key, '=');
    IndexOfFirst(k, '=', v);
    assert part[..|k|] == k && part[|k| + 1..] == v;
    UnquoteQuote(p.key);
    UnquoteQuote(p.value);
  }

  lemma QuoteInjective(a: Text, b: Text)
    ensures Quote(a) == Quote(b) <==> a == b
  {
    UnquoteQuote(a);
    UnquoteQuote(b);
  }

  lemma EncodedIsCanonical(d: seq<Pair>, reserved: Text)
    requires DistinctKeys(d) && NoBlanks(d) && !HasKey(d, reserved)
    ensures CanonicalQuery(UrlEncode(d), reserved)
  {
    if d != [] {
      SplitEncoded(d);
      var parts := EncodePairs(d);
      forall i | 0 <= i < |parts|
        ensures CanonicalPart(parts[i]) && RawKey(parts[i]) == Quote(d[i].key) && d[i].key != reserved
      {
        assert d[i] in d;
        EncodedPartCanonical(d[i]);
      }
      forall i, j | 0 <= i < j < |parts| ensures RawKey(parts[i]) != RawKey(parts[j]) {
        QuoteInjective(d[i].key, d[j].key);
      }
      forall part | part in parts ensures CanonicalPart(part) && RawKey(part) != Quote(reserved) {
        var i :| 0 <= i < |parts| && parts[i] == part;
        QuoteInjective(d[i].key, reserved);
      }
    }
  }

  lemma CanonicalPartEncoded(part: Text)
    requires CanonicalPart(part)
    ensures ParsePart(part).Some?
    ensures EncodePair(ParsePart(part).value) == part
    ensures Quote(ParsePart(part).value.key) == RawKey(part)
  {
    var i := IndexOf(part, '=');
    QuoteUnquote(part[..i]);
    QuoteUnquote(part[i + 1..]);
    assert part == part[..i] + ['='] + part[i + 1..];
  }

  lemma {:induction false} CanonicalPartsParsed(parts: seq<Text>)
    requires forall part | part in parts :: CanonicalPart(part)
    ensures |ParseParts(parts)| == |parts|
    ensures forall i | 0 <= i < |parts| :: Some(ParseParts(parts)[i]) == ParsePart(parts[i])
  {
    if parts != [] {
      CanonicalPartEncoded(parts[0]);
      CanonicalPartsParsed(parts[1..]);
      assert ParseParts(parts)[1..] == ParseParts(parts[1..]);
    }
  }

  lemma CanonicalPartsEncoded(parts: seq<Text>)
    requires forall part | part in parts :: CanonicalPart(part)
    ensures |ParseParts(parts)| == |parts|
    ensures forall i | 0 <= i < |parts| :: Some(ParseParts(parts)[i]) == ParsePart(parts[i])
    ensures EncodePairs(ParseParts(parts)) == parts
  {
    CanonicalPartsParsed(parts);
    forall i | 0 <= i < |parts| ensures EncodePairs(ParseParts(parts))[i] == parts[i] {
      CanonicalPartEncoded(parts[i]);
    }
  }

  lemma CanonicalIsEncoded(q: Text, reserved: Text)
    requires CanonicalQuery(q, reserved)
    ensures var d := ParseQsl(q); DistinctKeys(d) && !HasKey(d, reserved) && UrlEncode(d) == q
  {
    if q != [] {
      var parts := Split<Byte>(q, '&');
      var d := ParseQsl(q);
      CanonicalPartsEncoded(parts);
      JoinSplit<Byte>(q, '&');
      forall i | 0 <= i < |d| ensures Quote(d[i].key) == RawKey(parts[i]) && d[i].key != reserved {
        assert parts[i] in parts;
        CanonicalPartEncoded(parts[i]);
      }
      forall i, j | 0 <= i < j < |d| ensures d[i].key != d[j].key {
        QuoteInjective(d[i].key, d[j].key);
      }
    }
  }

  function QueryDict(q: Text): seq<Pair> {
    ToDict(ParseQsl(q))
  }

  lemma QueryDictLaws(q: Text)
    ensures DistinctKeys(QueryDict(q)) && NoBlanks(QueryDict(q))
  {
    ParsePartsNoBlanks(Split<Byte>(q, '&'));
    PutAllLaws([], ParseQsl(q));
  }

  /** A query is read and written back unchanged, without the reserved key, exactly when it is canonical. */
  lemma CanonicalExactly(q: Text, reserved: Text)
    ensures UrlEncode(Remove(QueryDict(q), reserved)) == q <==> CanonicalQuery(q, reserved)
  {
    var d := Remove(QueryDict(q), reserved);
    QueryDictLaws(q);
    RemoveLaws(QueryDict(q), reserved);
    RemoveDistinct(QueryDict(q), reserved);
    EncodedIsCanonical(d, reserved);
    if CanonicalQuery(q, reserved) {
      CanonicalIsEncoded(q, reserved);
      ToDictDistinct(ParseQsl(q));
      RemoveAbsent(QueryDict(q), reserved);
    }
  }

  /** Reading back the dictionary with `k` set to `v`: the value is there unless it was blank, and the rest is as before. */
  lemma ReadBackPut(q: Text, k: Text, v: Text)
    ensures var d := QueryDict(UrlEncode(Put(QueryDict(q), k, v)));
            && Lookup(d, k) == (if v == [] then None else Some(v))
            && Remove(d, k) == Remove(QueryDict(q), k)
  {
    var d := QueryDict(q);
    var e := Put(d, k, v);
    QueryDictLaws(q);
    PutLaws(d, k, v);
    PutDistinct(d, k, v);
    ParseEncode(e);
    if v == [] {
      BlankIsRemoved(d, k);
      RemoveLaws(d, k);
      RemoveDistinct(d, k);
      ToDictDistinct(Remove(d, k));
      RemoveAbsent(Remove(d, k), k);
    } else {
      NonBlankAll(e);
      ToDictDistinct(e);
    }
  }

  /** Reading back what was written changes nothing more. */
  lemma ReadBack(q: Text)
    ensures QueryDict(UrlEncode(QueryDict(q))) == QueryDict(q)
  {
    QueryDictLaws(q);
    ParseEncode(QueryDict(q));
    NonBlankAll(QueryDict(q));
    ToDictDistinct(QueryDict(q));
  }
}
