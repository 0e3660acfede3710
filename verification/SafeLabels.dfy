/** Kubernetes label values made from any text. */
module SafeLabels {
  import opened Sequences

  const MAX_LABEL_LEN := 63
  const HASH_LEN := 9

  predicate Alphanumeric(c: char) {
    'a' <= c <= 'z' || '0' <= c <= '9' || 'A' <= c <= 'Z'
  }

  predicate Allowed(c: char) {
    Alphanumeric(c) || c == '_' || c == '-' || c == '.'
  }

  /** The characters that a label may hold, one by one. */
  lemma Characters(c: char)
    ensures Alphanumeric(c) <==> c in {
      '0', '1', '2', '3', '4', '5', '6', '7', '8', '9',
      'a', 'b', 'c', 'd', 'e', 'f', 'g', 'h', 'i', 'j', 'k', 'l', 'm', 'n', 'o', 'p', 'q', 'r', 's', 't', 'u', 'v', 'w', 'x', 'y', 'z',
      'A', 'B', 'C', 'D', 'E', 'F', 'G', 'H', 'I', 'J', 'K', 'L', 'M', 'N', 'O', 'P', 'Q', 'R', 'S', 'T', 'U', 'V', 'W', 'X', 'Y', 'Z'}
    ensures Allowed(c) <==> Alphanumeric(c) || c in {'-', '_', '.'}
  {
  }

  predicate HasAlphanumeric(s: string) {
    exists i | 0 <= i < |s| :: Alphanumeric(s[i])
  }

  function StripLeft(s: string): string {
    if s == "" || Alphanumeric(s[0]) then s else StripLeft(s[1..])
  }

  function StripRight(s: string): string {
    if s == "" || Alphanumeric(s[|s| - 1]) then s else StripRight(s[..|s| - 1])
  }

  /** What the pattern leaves: nothing before the first alphanumeric or after the last, and only allowed characters between. */
  function Cleaned(s: string): string {
    Filter(Allowed, StripRight(StripLeft(s)))
  }

  /** `hash` stands for the hexadecimal MD5 digest. */
  function MakeSafeLabelValue(s: string, hash: string -> string): string
    requires |hash(s)| >= HASH_LEN
  {
    var safe := Cleaned(s);
    if |safe| > MAX_LABEL_LEN || s != safe then
      var safeHash := hash(s)[..HASH_LEN];
      var room := MAX_LABEL_LEN - |safeHash| - 1;
      (if |safe| > room then safe[..room] else safe) + "-" + safeHash
    else safe
  }

  /** All that matters of the hexadecimal digest. */
  ghost predicate IsDigest(s: string) {
    |s| >= HASH_LEN && forall c | c in s :: Alphanumeric(c)
  }

  /** The syntax of a label value. */
  predicate ValidLabel(s: string) {
    s == "" ||
    (|s| <= MAX_LABEL_LEN && Alphanumeric(s[0]) && Alphanumeric(s[|s| - 1]) && forall c | c in s :: Allowed(c))
  }

  lemma {:induction false} StripLeftLaws(s: string)
    ensures StripLeft(s) != "" <==> HasAlphanumeric(s)
    ensures StripLeft(s) != "" ==> Alphanumeric(StripLeft(s)[0])
    ensures forall c :: c in StripLeft(s) ==> c in s
    ensures s != "" && Alphanumeric(s[0]) ==> StripLeft(s) == s
  {
    if s != "" {
      StripLeftLaws(s[1..]);
      assert s == [s[0]] + s[1..];
      assert HasAlphanumeric(s[1..]) ==> HasAlphanumeric(s) by {
        if i :| 0 <= i < |s[1..]| && Alphanumeric(s[1..][i]) {
          assert Alphanumeric(s[i + 1]);
        }
      }
      if !Alphanumeric(s[0]) {
        if i :| 0 <= i < |s| && Alphanumeric(s[i]) {
          assert Alphanumeric(s[1..][i - 1]);
        }
      }
    }
  }

  lemma {:induction false} StripRightLaws(s: string)
    requires s != "" && Alphanumeric(s[0])
    ensures StripRight(s) != "" && StripRight(s)[0] == s[0]
    ensures Alphanumeric(StripRight(s)[|StripRight(s)| - 1])
    ensures Alphanumeric(s[|s| - 1]) ==> StripRight(s) == s
  {
    if !Alphanumeric(s[|s| - 1]) {
      StripRightLaws(s[..|s| - 1]);
    }
  }

  lemma {:induction false} FilterEnds(p: char -> bool, s: string)
    requires s != "" && p(s[0]) && p(s[|s| - 1])
    ensures var r := Filter(p, s); r != [] && r[0] == s[0] && r[|r| - 1] == s[|s| - 1]
  {
    FilterLast(p, s);
    assert Filter(p, s) == [s[0]] + Filter(p, s[1..]);
  }

  lemma {:induction false} FilterLast(p: char -> bool, s: string)
    requires s != "" && p(s[|s| - 1])
    ensures var r := Filter(p, s); r != [] && r[|r| - 1] == s[|s| - 1]
  {
    var rest := s[1..];
    if rest != "" {
      assert rest[|rest| - 1] == s[|s| - 1];
      FilterLast(p, rest);
      var r := Filter(p, rest);
      assert Filter(p, s) == (if p(s[0]) then [s[0]] else []) + r;
    }
  }

  lemma {:induction false} FilterAll(p: char -> bool, s: string)
    requires forall c | c in s :: p(c)
    ensures Filter(p, s) == s
  {
    if s != "" {
      FilterAll(p, s[1..]);
      assert s == [s[0]] + s[1..];
    }
  }

  lemma CleanedLaws(s: string)
    ensures Cleaned(s) != "" <==> HasAlphanumeric(s)
    ensures var r := Cleaned(s);
            r != "" ==> Alphanumeric(r[0]) && Alphanumeric(r[|r| - 1]) && forall c | c in r :: Allowed(c)
  {
    var left := StripLeft(s);
    StripLeftLaws(s);
    if left != "" {
      StripRightLaws(left);
      FilterEnds(Allowed, StripRight(left));
    }
  }

  lemma {:induction false} StripLeftOf(a: string, m: string)
    requires !HasAlphanumeric(a) && m != "" && Alphanumeric(m[0])
    ensures StripLeft(a + m) == m
  {
    if a == "" {
      assert a + m == m;
    } else {
      assert !Alphanumeric(a[0]) && !HasAlphanumeric(a[1..]) by {
        assert forall i | 0 <= i < |a[1..]| :: a[1..][i] == a[i + 1];
      }
      assert (a + m)[1..] == a[1..] + m;
      StripLeftOf(a[1..], m);
    }
  }

  lemma {:induction false} StripRightOf(m: string, b: string)
    requires !HasAlphanumeric(b) && m != "" && Alphanumeric(m[|m| - 1])
    ensures StripRight(m + b) == m
  {
    if b == "" {
      assert m + b == m;
    } else {
      var i := |b| - 1;
      assert !Alphanumeric(b[i]) && !HasAlphanumeric(b[..i]) by {
        assert forall j | 0 <= j < i :: b[..i][j] == b[j];
      }
      assert (m + b)[..|m + b| - 1] == m + b[..i];
      StripRightOf(m, b[..i]);
    }
  }

  /** What becomes of a text that is not a label: of the stretch from its first to its last alphanumeric the allowed
      characters, as many of them as leave room for a dash and nine characters of the digest. */
  lemma MarkedExactly(a: string, m: string, b: string, hash: string -> string)
    requires !HasAlphanumeric(a) && !HasAlphanumeric(b) && m != "" && Alphanumeric(m[0]) && Alphanumeric(m[|m| - 1])
    requires !ValidLabel(a + m + b) && |hash(a + m + b)| >= HASH_LEN
    ensures var kept := Filter(Allowed, m);
            MakeSafeLabelValue(a + m + b, hash)
            == (if |kept| > 53 then kept[..53] else kept) + "-" + hash(a + m + b)[..9]
  {
    var s := a + m + b;
    assert s == a + (m + b) && (m + b)[0] == m[0];
    StripLeftOf(a, m + b);
    StripRightOf(m, b);
    if Cleaned(s) == s {
      CleanedLaws(s);
    }
  }

  /** A valid label is left as it is. */
  lemma ValidIsKept(s: string, hash: string -> string)
    requires ValidLabel(s) && |hash(s)| >= HASH_LEN
    ensures MakeSafeLabelValue(s, hash) == s
  {
    if s != "" {
      StripLeftLaws(s);
      StripRightLaws(s);
      FilterAll(Allowed, s);
    }
  }

  lemma HashEnd(digest: string)
    requires IsDigest(digest)
    ensures var h := digest[..HASH_LEN]; Alphanumeric(h[HASH_LEN - 1]) && forall c | c in h :: Allowed(c)
  {
    assert digest[HASH_LEN - 1] in digest;
    assert forall c | c in digest[..HASH_LEN] :: c in digest;
  }

  /** The result never exceeds the limit, and it is a valid label exactly when the text is empty or has an alphanumeric. */
  lemma SafeExactly(s: string, hash: string -> string)
    requires IsDigest(hash(s))
    ensures |MakeSafeLabelValue(s, hash)| <= MAX_LABEL_LEN
    ensures ValidLabel(MakeSafeLabelValue(s, hash)) <==> s == "" || HasAlphanumeric(s)
  {
    var safe := Cleaned(s);
    CleanedLaws(s);
    HashEnd(hash(s));
    var kept := if |safe| > 53 then safe[..53] else safe;
    assert forall c | c in kept :: c in safe;
    MarkedIsLabel(kept, hash(s)[..HASH_LEN]);
  }

  /** A label of a kept part and a digest is valid exactly when something was kept. */
  lemma MarkedIsLabel(kept: string, h: string)
    requires |kept| <= 53 && |h| == HASH_LEN && Alphanumeric(h[HASH_LEN - 1])
    requires forall c | c in h :: Allowed(c)
    requires kept != "" ==> Alphanumeric(kept[0]) && forall c | c in kept :: Allowed(c)
    ensures ValidLabel(kept + "-" + h) <==> kept != ""
  {
    var marked := kept + "-" + h;
    assert marked[|marked| - 1] == h[HASH_LEN - 1];
    assert forall c | c in marked :: c in kept || c == '-' || c in h;
    if kept == "" {
      assert marked[0] == '-';
    } else {
      assert marked[0] == kept[0];
    }
  }

  /** Making a label safe twice is the same as once, exactly in the same cases. */
  lemma StableExactly(s: string, hash: string -> string)
    requires IsDigest(hash(s)) && IsDigest(hash(MakeSafeLabelValue(s, hash)))
    ensures MakeSafeLabelValue(MakeSafeLabelValue(s, hash), hash) == MakeSafeLabelValue(s, hash)
            <==> s == "" || HasAlphanumeric(s)
  {
    var once := MakeSafeLabelValue(s, hash);
    SafeExactly(s, hash);
    SafeExactly(once, hash);
    if ValidLabel(once) {
      ValidIsKept(once, hash);
    } else {
      CleanedLaws(s);
      var h := hash(s)[..HASH_LEN];
      assert once == "" + "-" + h == "-" + h;
      assert h[0] in hash(s);
      assert Alphanumeric(once[1]);
      var twice := MakeSafeLabelValue(once, hash);
      assert HasAlphanumeric(once);
      assert ValidLabel(twice) && !ValidLabel(once);
    }
  }
}
