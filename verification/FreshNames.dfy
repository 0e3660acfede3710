/** Names for extracted targets that do not clash with the task's attributes or with each other. */
module FreshNames {
  import opened Decimals

  /** The suggestions in order: the name itself, then the name with 0, 1, 2, ... after it. */
  function Suggested(original: string, k: nat): string {
    original + if k == 0 then "" else Decimal(k - 1)
  }

  /** A suggestion is the name itself or the name and a number, written without needless zeros. */
  lemma SuggestedExactly(original: string, k: nat)
    ensures Suggested(original, 0) == original
    ensures var s := Suggested(original, k + 1);
            && original <= s && |s| > |original| && (forall c | c in s[|original|..] :: IsDigit(c))
            && Value(s[|original|..]) == k && (s[|original|] == '0' ==> k == 0 && |s| == |original| + 1)
  {
    var s := Suggested(original, k + 1);
    assert s[|original|..] == Decimal(k);
    ValueDecimal(k);
    DecimalStart(k);
  }

  lemma SuggestionsDiffer(original: string, i: nat, j: nat)
    requires i != j
    ensures Suggested(original, i) != Suggested(original, j)
  {
    var a, b := Suggested(original, i), Suggested(original, j);
    if a == b {
      assert a[|original|..] == if i == 0 then "" else Decimal(i - 1);
      assert b[|original|..] == if j == 0 then "" else Decimal(j - 1);
      if i > 0 && j > 0 {
        ValueDecimal(i - 1);
        ValueDecimal(j - 1);
      }
    }
  }

  /** The first `k` suggestions. */
  function Tried(original: string, k: nat): set<string> {
    if k == 0 then {} else Tried(original, k - 1) + {Suggested(original, k - 1)}
  }

  lemma {:induction false} TriedAre(original: string, k: nat)
    ensures forall s :: s in Tried(original, k) ==> exists i | 0 <= i < k :: Suggested(original, i) == s
  {
    if k > 0 {
      TriedAre(original, k - 1);
    }
  }

  lemma {:induction false} TriedCount(original: string, k: nat)
    ensures |Tried(original, k)| == k
  {
    if k > 0 {
      TriedCount(original, k - 1);
      TriedAre(original, k - 1);
      if Suggested(original, k - 1) in Tried(original, k - 1) {
        var i :| 0 <= i < k - 1 && Suggested(original, i) == Suggested(original, k - 1);
        SuggestionsDiffer(original, i, k - 1);
      }
    }
  }

  lemma Pigeonhole<T>(a: set<T>, b: set<T>)
    requires a <= b
    ensures |a| <= |b|
  {
    assert b == a + (b - a);
  }

  /** The search ends with the first suggestion that is free, after at most one more try than there are known names. */
  method GetAvailableName(original: string, known: set<string>) returns (name: string, ghost k: nat)
    ensures name == Suggested(original, k) && name !in known
    ensures forall i | 0 <= i < k :: Suggested(original, i) in known
    ensures k <= |known|
  {
    k := 0;
    var c := 0;
    name := Suggested(original, 0);
    while name in known
      invariant c == k && name == Suggested(original, c)
      invariant forall i | 0 <= i < c :: Suggested(original, i) in known
      invariant Tried(original, c) <= known && c <= |known|
      decreases |known| - c
    {
      TriedCount(original, c + 1);
      Pigeonhole(Tried(original, c + 1), known);
      c := c + 1;
      k := c;
      name := Suggested(original, c);
    }
  }

  /** `name` is the first suggestion that is not known, and at most |known| others came before it. */
  ghost predicate FirstFree(original: string, known: set<string>, name: string) {
    exists k: nat | k <= |known| :: IsSuggestion(original, known, name, k)
  }

  ghost predicate IsSuggestion(original: string, known: set<string>, name: string, k: nat) {
    name == Suggested(original, k) && name !in known && forall i | 0 <= i < k :: Suggested(original, i) in known
  }

  /** What is known when the next name is chosen. */
  ghost function Known(attributes: set<string>, params: seq<string>): set<string> {
    attributes + (set p | p in params)
  }

  /** Every name was the first free one when it was chosen. */
  ghost predicate Deduplicated(names: seq<string>, attributes: set<string>, params: seq<string>)
    requires |params| <= |names|
  {
    forall i | 0 <= i < |params| :: FirstFree(names[i], Known(attributes, params[..i]), params[i])
  }

  lemma OneMore(names: seq<string>, attributes: set<string>, params: seq<string>, name: string)
    requires |params| < |names| && Deduplicated(names, attributes, params)
    requires FirstFree(names[|params|], Known(attributes, params), name)
    ensures Deduplicated(names, attributes, params + [name])
    ensures Known(attributes, params + [name]) == Known(attributes, params) + {name}
  {
    var more := params + [name];
    assert more[..|params|] == params;
    forall i | 0 <= i < |more| ensures FirstFree(names[i], Known(attributes, more[..i]), more[i]) {
      if i < |params| {
        assert more[..i] == params[..i];
      }
    }
  }

  /** One name for each target, in order, each the first that is free after those before it. */
  method ExtractTargetsDedup(names: seq<string>, attributes: set<string>) returns (params: seq<string>)
    ensures |params| == |names| && Deduplicated(names, attributes, params)
  {
    var known := attributes;
    params := [];
    for i := 0 to |names|
      invariant |params| == i && known == Known(attributes, params) && Deduplicated(names, attributes, params)
    {
      var name, k := GetAvailableName(names[i], known);
      assert IsSuggestion(names[i], known, name, k);
      OneMore(names, attributes, params, name);
      known := known + {name};
      params := params + [name];
    }
  }

  /** `name` is the original with a number after it, and the original and all smaller numbers were taken. */
  ghost predicate NumberedFrom(original: string, known: set<string>, name: string) {
    && original in known && original <= name && (forall c | c in name[|original|..] :: IsDigit(c))
    && forall s | original <= s && IsNumeral(s[|original|..]) && Value(s[|original|..]) < Value(name[|original|..]) :: s in known
  }

  /** Digits without needless zeros. */
  ghost predicate IsNumeral(s: string) {
    s != "" && (forall c | c in s :: IsDigit(c)) && (s[0] == '0' ==> s == "0")
  }

  lemma Numbered(original: string, known: set<string>, name: string, k: nat)
    requires k > 0 && IsSuggestion(original, known, name, k)
    ensures NumberedFrom(original, known, name)
  {
    SuggestedExactly(original, k - 1);
    assert Suggested(original, 0) in known;
    forall s | original <= s && IsNumeral(s[|original|..]) && Value(s[|original|..]) < k - 1 ensures s in known {
      var n := Value(s[|original|..]);
      DecimalValue(s[|original|..]);
      assert s == original + s[|original|..] == Suggested(original, n + 1);
    }
  }

  /** So they are all different, none is an attribute, each starts with its own name, and a name that is free is kept. */
  lemma DedupNames(names: seq<string>, attributes: set<string>, params: seq<string>, i: nat)
    requires |params| == |names| && i < |names|
    requires Deduplicated(names, attributes, params)
    ensures params[i] !in attributes && forall j | 0 <= j < i :: params[j] != params[i]
    ensures names[i] <= params[i]
    ensures params[i] != names[i] ==> NumberedFrom(names[i], Known(attributes, params[..i]), params[i])
    ensures names[i] !in Known(attributes, params[..i]) ==> params[i] == names[i]
  {
    var known := Known(attributes, params[..i]);
    assert FirstFree(names[i], known, params[i]);
    var k: nat :| k <= |known| && IsSuggestion(names[i], known, params[i], k);
    assert Suggested(names[i], 0) == names[i];
    if k > 0 {
      Numbered(names[i], known, params[i], k);
    }
    forall j | 0 <= j < i ensures params[j] != params[i] {
      assert params[j] == params[..i][j];
    }
  }
}
