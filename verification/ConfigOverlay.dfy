/** Overlaying the server's configuration on the Airflow connection's: `deep_update` and the check that guards it. */
module ConfigOverlay {
  import opened Common
  import opened Strings

  datatype Scalar = Text(text: string) | Number(number: int) | Flag(flag: bool) | Null

  /** A list is known by its JSON text. */
  datatype Json = Leaf(scalar: Scalar) | Array(dumped: string) | Obj(fields: Fields)

  /** The fields of an object in their order. */
  datatype Fields = Nil | Cons(key: string, value: Json, rest: Fields)

  type Path = seq<string>

  function Get(f: Fields, k: string): Option<Json> {
    match f
    case Nil => None
    case Cons(key, value, rest) => if key == k then Some(value) else Get(rest, k)
  }

  function Put(f: Fields, k: string, v: Json): Fields {
    match f
    case Nil => Cons(k, v, Nil)
    case Cons(key, value, rest) => if key == k then Cons(key, v, rest) else Cons(key, value, Put(rest, k, v))
  }

  /** Keys are distinct at every level. */
  predicate Proper(f: Fields) {
    match f
    case Nil => true
    case Cons(k, v, rest) => Get(rest, k).None? && (v.Obj? ==> Proper(v.fields)) && Proper(rest)
  }

  /** A value that replaces whatever it meets: anything but a mapping with fields. */
  predicate Replaces(v: Json) {
    !(v.Obj? && v.fields.Cons?)
  }

  /** The mapping under `k`, empty if there is nothing, or `None` if something else is there. */
  function SubFields(s: Fields, k: string): Option<Fields> {
    match Get(s, k)
    case None => Some(Nil)
    case Some(v) => if v.Obj? then Some(v.fields) else None
  }

  /** `deep_update(s, o)`; `None` when it raises because a mapping with fields meets something that is not a mapping. */
  function DeepUpdate(s: Fields, o: Fields): Option<Fields>
    decreases o
  {
    match o
    case Nil => Some(s)
    case Cons(k, v, rest) =>
      if Replaces(v) then DeepUpdate(Put(s, k, v), rest)
      else
        match SubFields(s, k)
        case None => None
        case Some(sub) =>
          match DeepUpdate(sub, v.fields)
          case None => None
          case Some(merged) => DeepUpdate(Put(s, k, Obj(merged)), rest)
  }

  // ----- one level -----

  lemma {:induction false} GetPut(f: Fields, k: string, v: Json, j: string)
    ensures Get(Put(f, k, v), j) == if j == k then Some(v) else Get(f, j)
  {
    if f.Cons? {
      GetPut(f.rest, k, v, j);
    }
  }

  lemma {:induction false} GetPutSelf(f: Fields, k: string, v: Json)
    requires Get(f, k) == Some(v)
    ensures Put(f, k, v) == f
  {
    if f.key != k {
      GetPutSelf(f.rest, k, v);
    }
  }

  /** What is under one key after the update. */
  lemma {:induction false} UpdatedKey(s: Fields, o: Fields, k: string)
    requires Proper(o) && DeepUpdate(s, o).Some?
    ensures var m := DeepUpdate(s, o).value;
            match Get(o, k)
            case None => Get(m, k) == Get(s, k)
            case Some(v) =>
              if Replaces(v) then Get(m, k) == Some(v)
              else SubFields(s, k).Some? && DeepUpdate(SubFields(s, k).value, v.fields).Some?
                   && Get(m, k) == Some(Obj(DeepUpdate(SubFields(s, k).value, v.fields).value))
    decreases o
  {
    if o.Cons? {
      var v := if Replaces(o.value) then o.value else Obj(DeepUpdate(SubFields(s, o.key).value, o.value.fields).value);
      GetPut(s, o.key, v, k);
      UpdatedKey(Put(s, o.key, v), o.rest, k);
    }
  }

  /** No mapping with fields meets something that is not a mapping. */
  predicate Compatible(s: Fields, o: Fields)
    decreases o
  {
    match o
    case Nil => true
    case Cons(k, v, rest) =>
      (!Replaces(v) ==> SubFields(s, k).Some? && Compatible(SubFields(s, k).value, v.fields)) && Compatible(s, rest)
  }

  lemma {:induction false} CompatibleUnder(s: Fields, o: Fields, k: string)
    requires Compatible(s, o) && Get(o, k).Some? && !Replaces(Get(o, k).value)
    ensures SubFields(s, k).Some? && Compatible(SubFields(s, k).value, Get(o, k).value.fields)
  {
    if o.key != k {
      CompatibleUnder(s, o.rest, k);
    }
  }

  /** At the path `p` a mapping with fields meets something that is not a mapping. */
  ghost predicate Meets(s: Fields, o: Fields, p: Path) {
    && p != [] && At(o, p).Some? && At(o, p).value.Obj? && At(o, p).value.fields != Nil
    && At(s, p).Some? && !At(s, p).value.Obj?
  }

  lemma {:induction false} CompatibleNeverMeets(s: Fields, o: Fields, p: Path)
    requires Compatible(s, o)
    ensures !Meets(s, o, p)
    decreases |p|
  {
    if p != [] && At(o, p).Some? && At(o, p).value.Obj? && At(o, p).value.fields != Nil {
      if |p| > 1 {
        AtNothing(p[1..]);
      }
      CompatibleUnder(s, o, p[0]);
      if |p| > 1 {
        CompatibleNeverMeets(SubFields(s, p[0]).value, Get(o, p[0]).value.fields, p[1..]);
      }
    }
  }

  lemma {:induction false} IncompatibleMeets(s: Fields, o: Fields) returns (p: Path)
    requires Proper(o) && !Compatible(s, o)
    ensures Meets(s, o, p)
    decreases o
  {
    if !Compatible(s, o.rest) {
      p := IncompatibleMeets(s, o.rest);
      assert Get(o, p[0]) == Get(o.rest, p[0]);
    } else if SubFields(s, o.key).None? {
      p := [o.key];
    } else {
      var q := IncompatibleMeets(SubFields(s, o.key).value, o.value.fields);
      p := [o.key] + q;
      assert p[1..] == q;
      if Get(s, o.key).None? {
        AtNothing(q);
      }
    }
  }

  /** The trees are compatible exactly when at no path a mapping with fields meets something that is not a mapping. */
  lemma CompatibleExactly(s: Fields, o: Fields)
    requires Proper(o)
    ensures Compatible(s, o) <==> forall p :: !Meets(s, o, p)
  {
    if Compatible(s, o) {
      forall p ensures !Meets(s, o, p) {
        CompatibleNeverMeets(s, o, p);
      }
    } else {
      var p := IncompatibleMeets(s, o);
    }
  }

  lemma {:induction false} CompatibleElsewhere(s: Fields, o: Fields, k: string, v: Json)
    requires Get(o, k).None?
    ensures Compatible(Put(s, k, v), o) == Compatible(s, o)
    decreases o
  {
    if o.Cons? {
      GetPut(s, k, v, o.key);
      CompatibleElsewhere(s, o.rest, k, v);
    }
  }

  /** The update raises exactly on incompatible trees. */
  lemma {:induction false} RaisesExactly(s: Fields, o: Fields)
    requires Proper(o)
    ensures DeepUpdate(s, o).Some? <==> Compatible(s, o)
    decreases o
  {
    if o.Cons? {
      if Replaces(o.value) {
        RaisesExactly(Put(s, o.key, o.value), o.rest);
        CompatibleElsewhere(s, o.rest, o.key, o.value);
      } else if SubFields(s, o.key).Some? {
        var sub := SubFields(s, o.key).value;
        RaisesExactly(sub, o.value.fields);
        if DeepUpdate(sub, o.value.fields).Some? {
          var v := Obj(DeepUpdate(sub, o.value.fields).value);
          RaisesExactly(Put(s, o.key, v), o.rest);
          CompatibleElsewhere(s, o.rest, o.key, v);
        }
      }
    }
  }

  // ----- every path -----

  function At(f: Fields, p: Path): Option<Json>
    requires p != []
    decreases |p|
  {
    match Get(f, p[0])
    case None => None
    case Some(v) => if |p| == 1 then Some(v) else if v.Obj? then At(v.fields, p[1..]) else None
  }

  /** Some value on the way along `p` replaces what it meets. */
  predicate Overrides(o: Fields, p: Path)
    requires p != []
    decreases |p|
  {
    match Get(o, p[0])
    case None => false
    case Some(v) => Replaces(v) || (|p| > 1 && Overrides(v.fields, p[1..]))
  }

  lemma AtNothing(p: Path)
    requires p != []
    ensures At(Nil, p) == None
  {
  }

  lemma {:induction false} ProperUnder(f: Fields, k: string)
    requires Proper(f) && Get(f, k).Some? && Get(f, k).value.Obj?
    ensures Proper(Get(f, k).value.fields)
  {
    if f.key != k {
      ProperUnder(f.rest, k);
    }
  }

  /** The update is right at every path: where the overrides put a value it is theirs, where they have nothing it is what
      was there, and where they only pass through there is a mapping. */
  lemma {:induction false} OverlayRight(s: Fields, o: Fields, p: Path)
    requires p != [] && Proper(o) && DeepUpdate(s, o).Some?
    ensures var m := DeepUpdate(s, o).value;
            if Overrides(o, p) then At(m, p) == At(o, p)
            else if At(o, p).None? then At(m, p) == At(s, p)
            else At(m, p).Some? && At(m, p).value.Obj?
    decreases |p|
  {
    UpdatedKey(s, o, p[0]);
    var v := Get(o, p[0]);
    if v.Some? && !Replaces(v.value) && |p| > 1 {
      ProperUnder(o, p[0]);
      OverlayRight(SubFields(s, p[0]).value, v.value.fields, p[1..]);
      AtNothing(p[1..]);
    }
  }

  /** In particular an empty mapping empties what was there, and any other value that is no mapping replaces it. */
  lemma {:induction false} PutsItsOwn(s: Fields, o: Fields, p: Path)
    requires p != [] && Proper(o) && DeepUpdate(s, o).Some? && At(o, p).Some?
    requires At(o, p).value == Obj(Nil) || !At(o, p).value.Obj?
    ensures At(DeepUpdate(s, o).value, p) == At(o, p)
  {
    EndsInOverride(o, p);
    OverlayRight(s, o, p);
  }

  lemma {:induction false} EndsInOverride(o: Fields, p: Path)
    requires p != [] && At(o, p).Some? && (At(o, p).value == Obj(Nil) || !At(o, p).value.Obj?)
    ensures Overrides(o, p)
    decreases |p|
  {
    if |p| > 1 {
      EndsInOverride(Get(o, p[0]).value.fields, p[1..]);
    }
  }

  // ----- updating again -----

  /** Everything in `o` is already in `f`. */
  predicate Contains(f: Fields, o: Fields)
    decreases o
  {
    match o
    case Nil => true
    case Cons(k, v, rest) =>
      && Contains(f, rest)
      && (if Replaces(v) then Get(f, k) == Some(v)
          else Get(f, k).Some? && Get(f, k).value.Obj? && Contains(Get(f, k).value.fields, v.fields))
  }

  lemma {:induction false} ContainsElsewhere(f: Fields, o: Fields, k: string, v: Json)
    requires Get(o, k).None?
    ensures Contains(Put(f, k, v), o) == Contains(f, o)
    decreases o
  {
    if o.Cons? {
      GetPut(f, k, v, o.key);
      ContainsElsewhere(f, o.rest, k, v);
    }
  }

  lemma {:induction false} UpdateContains(s: Fields, o: Fields)
    requires Proper(o) && DeepUpdate(s, o).Some?
    ensures Contains(DeepUpdate(s, o).value, o)
    decreases o
  {
    if o.Cons? {
      var v := if Replaces(o.value) then o.value else Obj(DeepUpdate(SubFields(s, o.key).value, o.value.fields).value);
      if !Replaces(o.value) {
        UpdateContains(SubFields(s, o.key).value, o.value.fields);
      }
      UpdateContains(Put(s, o.key, v), o.rest);
      UpdatedKey(Put(s, o.key, v), o.rest, o.key);
      GetPut(s, o.key, v, o.key);
    }
  }

  lemma {:induction false} ContainedChangesNothing(f: Fields, o: Fields)
    requires Proper(o) && Contains(f, o)
    ensures DeepUpdate(f, o) == Some(f)
    decreases o
  {
    if o.Cons? {
      if !Replaces(o.value) {
        ContainedChangesNothing(Get(f, o.key).value.fields, o.value.fields);
      }
      GetPutSelf(f, o.key, Get(f, o.key).value);
      ContainedChangesNothing(f, o.rest);
    }
  }

  /** Updating again with the same overrides changes nothing, not even the order; and it changes nothing the first time
      exactly when everything was already there. */
  lemma Converges(s: Fields, o: Fields)
    requires Proper(o)
    ensures DeepUpdate(s, o).Some? ==> DeepUpdate(DeepUpdate(s, o).value, o) == DeepUpdate(s, o)
    ensures DeepUpdate(s, o) == Some(s) <==> Contains(s, o)
  {
    if DeepUpdate(s, o).Some? {
      UpdateContains(s, o);
      ContainedChangesNothing(DeepUpdate(s, o).value, o);
    }
    if Contains(s, o) {
      ContainedChangesNothing(s, o);
    }
  }

  // ----- flattening and the check -----

  /** What `flatten_dict` makes of a value that is not a mapping. */
  function Flat(v: Json): Scalar
    requires !v.Obj?
  {
    if v.Array? then Text(v.dumped) else v.scalar
  }

  /** Later entries overwrite earlier ones of the same dotted name; mappings without fields leave no trace. */
  function FlattenInto(out: map<string, Scalar>, f: Fields, name: string): map<string, Scalar>
    decreases f
  {
    match f
    case Nil => out
    case Cons(k, v, rest) =>
      FlattenInto(if v.Obj? then FlattenInto(out, v.fields, name + k + ".") else out[name + k := Flat(v)], rest, name)
  }

  function Flatten(f: Fields): map<string, Scalar> {
    FlattenInto(map[], f, "")
  }

  /** The check that decides whether to write; it is true when the flat response is NOT a subset. */
  predicate AsksToWrite(response: Fields, current: Fields) {
    !(forall n | n in Flatten(response) :: n in Flatten(current) && Flatten(current)[n] == Flatten(response)[n])
  }

  predicate NoDots(f: Fields)
    decreases f
  {
    f.Cons? ==> '.' !in f.key && (f.value.Obj? ==> NoDots(f.value.fields)) && NoDots(f.rest)
  }

  ghost predicate PathNoDots(p: Path) {
    forall k | k in p :: '.' !in k
  }

  function Dotted(p: Path): string {
    JoinWith(p, '.')
  }

  function LeafAt(f: Fields, p: Path): Option<Scalar>
    requires p != []
  {
    match At(f, p)
    case None => None
    case Some(v) => if v.Obj? then None else Some(Flat(v))
  }

  /** The leaves in the order they are met, each with its dotted name. */
  function Leaves(f: Fields, name: string): seq<(string, Scalar)>
    decreases f
  {
    match f
    case Nil => []
    case Cons(k, v, rest) =>
      (if v.Obj? then Leaves(v.fields, name + k + ".") else [(name + k, Flat(v))]) + Leaves(rest, name)
  }

  function LeavesOf(f: Fields): seq<(string, Scalar)> {
    Leaves(f, "")
  }

  /** The value of the last leaf of a name. */
  function Last(leaves: seq<(string, Scalar)>, n: string): Option<Scalar>
    ensures Last(leaves, n).Some? <==> exists v :: (n, v) in leaves
    ensures Last(leaves, n).Some? ==> (n, Last(leaves, n).value) in leaves
  {
    if leaves == [] then None
    else
      var i := |leaves| - 1;
      assert leaves == leaves[..i] + [leaves[i]];
      if leaves[i].0 == n then Some(leaves[i].1) else Last(leaves[..i], n)
  }

  lemma {:induction false} LastOfTwo(a: seq<(string, Scalar)>, b: seq<(string, Scalar)>, n: string)
    ensures Last(a + b, n) == if Last(b, n).Some? then Last(b, n) else Last(a, n)
    decreases |b|
  {
    if b == [] {
      assert a + b == a;
    } else {
      var i := |b| - 1;
      assert (a + b)[..|a| + i] == a + b[..i];
      LastOfTwo(a, b[..i], n);
    }
  }

  function Entry(m: map<string, Scalar>, n: string): Option<Scalar> {
    if n in m then Some(m[n]) else None
  }

  lemma {:induction false} FlattenIntoIs(out: map<string, Scalar>, f: Fields, name: string, n: string)
    ensures Entry(FlattenInto(out, f, name), n)
            == if Last(Leaves(f, name), n).Some? then Last(Leaves(f, name), n) else Entry(out, n)
    decreases f
  {
    if f.Cons? {
      var next := name + f.key + ".";
      var here := if f.value.Obj? then FlattenInto(out, f.value.fields, next) else out[name + f.key := Flat(f.value)];
      var first := if f.value.Obj? then Leaves(f.value.fields, next) else [(name + f.key, Flat(f.value))];
      FlattenIntoIs(here, f.rest, name, n);
      LastOfTwo(first, Leaves(f.rest, name), n);
      if f.value.Obj? {
        FlattenIntoIs(out, f.value.fields, next, n);
      } else {
        LastOfOne(name + f.key, Flat(f.value), n);
      }
    }
  }

  lemma LastOfOne(k: string, v: Scalar, n: string)
    ensures Last([(k, v)], n) == if n == k then Some(v) else None
  {
    assert [(k, v)][..0] == [];
  }

  /** For every tree, a flat name has the value of the last leaf of that name. */
  lemma FlattenIs(f: Fields, n: string)
    ensures Entry(Flatten(f), n) == Last(LeavesOf(f), n)
  {
    FlattenIntoIs(map[], f, "", n);
  }

  /** For all trees, no write is asked for exactly when every dotted name of the response has, in both, a last leaf of the
      same value. */
  lemma AsksExactly(o: Fields, s: Fields)
    ensures !AsksToWrite(o, s) <==> forall leaf | leaf in LeavesOf(o) :: Last(LeavesOf(s), leaf.0) == Last(LeavesOf(o), leaf.0)
  {
    if !AsksToWrite(o, s) {
      forall leaf | leaf in LeavesOf(o) ensures Last(LeavesOf(s), leaf.0) == Last(LeavesOf(o), leaf.0) {
        FlattenIs(o, leaf.0);
        FlattenIs(s, leaf.0);
        assert (leaf.0, leaf.1) in LeavesOf(o);
        assert leaf.0 in Flatten(o);
      }
    }
    if forall leaf | leaf in LeavesOf(o) :: Last(LeavesOf(s), leaf.0) == Last(LeavesOf(o), leaf.0) {
      forall n | n in Flatten(o) ensures n in Flatten(s) && Flatten(s)[n] == Flatten(o)[n] {
        FlattenIs(o, n);
        FlattenIs(s, n);
        assert (n, Flatten(o)[n]) in LeavesOf(o);
      }
    }
  }

  // ----- names and paths -----

  /** A leaf with its name, seen from where the name so far is `name`. */
  lemma {:induction false} LeafAtPath(f: Fields, name: string, leaf: (string, Scalar)) returns (p: Path)
    requires Proper(f) && leaf in Leaves(f, name)
    ensures p != [] && LeafAt(f, p) == Some(leaf.1) && leaf.0 == name + Dotted(p)
    ensures NoDots(f) ==> PathNoDots(p)
    decreases f
  {
    if !f.value.Obj? && leaf == (name + f.key, Flat(f.value)) {
      p := [f.key];
    } else if f.value.Obj? && leaf in Leaves(f.value.fields, name + f.key + ".") {
      var q := LeafAtPath(f.value.fields, name + f.key + ".", leaf);
      p := [f.key] + q;
      assert p[1..] == q;
      assert name + f.key + "." + Dotted(q) == name + Dotted(p);
    } else {
      p := LeafAtPath(f.rest, name, leaf);
      GetAtHead(f, p[0]);
    }
  }

  lemma GetAtHead(f: Fields, k: string)
    requires f.Cons? && Proper(f) && Get(f.rest, k).Some?
    ensures Get(f, k) == Get(f.rest, k)
  {
  }

  lemma {:induction false} PathHasLeaf(f: Fields, name: string, p: Path)
    requires p != [] && LeafAt(f, p).Some?
    ensures (name + Dotted(p), LeafAt(f, p).value) in Leaves(f, name)
    decreases f
  {
    if f.key == p[0] {
      if |p| > 1 {
        PathHasLeaf(f.value.fields, name + f.key + ".", p[1..]);
        assert name + f.key + "." + Dotted(p[1..]) == name + Dotted(p);
      }
    } else {
      PathHasLeaf(f.rest, name, p);
    }
  }

  lemma {:induction false} PutKeeps(f: Fields, k: string, v: Json)
    requires Proper(f) && (v.Obj? ==> Proper(v.fields))
    ensures Proper(Put(f, k, v))
    ensures NoDots(f) && '.' !in k && (v.Obj? ==> NoDots(v.fields)) ==> NoDots(Put(f, k, v))
  {
    if f.Cons? && f.key != k {
      PutKeeps(f.rest, k, v);
      GetPut(f.rest, k, v, f.key);
    }
  }

  lemma {:induction false} NoDotsUnder(f: Fields, k: string)
    requires NoDots(f) && Get(f, k).Some? && Get(f, k).value.Obj?
    ensures NoDots(Get(f, k).value.fields)
  {
    if f.key != k {
      NoDotsUnder(f.rest, k);
    }
  }

  lemma {:induction false} UpdateKeeps(s: Fields, o: Fields)
    requires Proper(s) && Proper(o) && DeepUpdate(s, o).Some?
    ensures Proper(DeepUpdate(s, o).value)
    ensures NoDots(s) && NoDots(o) ==> NoDots(DeepUpdate(s, o).value)
    decreases o
  {
    if o.Cons? {
      var v := if Replaces(o.value) then o.value else Obj(DeepUpdate(SubFields(s, o.key).value, o.value.fields).value);
      if !Replaces(o.value) {
        if Get(s, o.key).Some? {
          ProperUnder(s, o.key);
          if NoDots(s) {
            NoDotsUnder(s, o.key);
          }
        }
        UpdateKeeps(SubFields(s, o.key).value, o.value.fields);
      }
      PutKeeps(s, o.key, v);
      UpdateKeeps(Put(s, o.key, v), o.rest);
    }
  }

  lemma {:induction false} LeavesOverride(o: Fields, p: Path)
    requires p != [] && LeafAt(o, p).Some?
    ensures Overrides(o, p)
    decreases |p|
  {
    if |p| > 1 {
      LeavesOverride(Get(o, p[0]).value.fields, p[1..]);
    }
  }

  lemma LeafSurvives(s: Fields, o: Fields, p: Path)
    requires Proper(o) && DeepUpdate(s, o).Some? && p != [] && LeafAt(o, p).Some?
    ensures LeafAt(DeepUpdate(s, o).value, p) == LeafAt(o, p)
  {
    LeavesOverride(o, p);
    OverlayRight(s, o, p);
  }

  /** Leaves of `f` that share a dotted name with a leaf of `o` have its value. */
  ghost predicate NoClash(o: Fields, f: Fields) {
    forall a, b | a in LeavesOf(o) && b in LeavesOf(f) && a.0 == b.0 :: a.1 == b.1
  }

  /** After an update the same response asks for no further write, unless in the result two leaves of one dotted name
      differ, one of them the response's. */
  lemma NoFurtherWrite(s: Fields, o: Fields)
    requires Proper(o) && DeepUpdate(s, o).Some? && NoClash(o, DeepUpdate(s, o).value)
    ensures !AsksToWrite(o, DeepUpdate(s, o).value)
  {
    var m := DeepUpdate(s, o).value;
    forall leaf | leaf in LeavesOf(o) ensures Last(LeavesOf(m), leaf.0) == Last(LeavesOf(o), leaf.0) {
      var p := LeafAtPath(o, "", leaf);
      LeafSurvives(s, o, p);
      PathHasLeaf(m, "", p);
      assert "" + Dotted(p) == leaf.0;
      var last := Last(LeavesOf(o), leaf.0);
      assert (leaf.0, leaf.1) in LeavesOf(o) && (leaf.0, leaf.1) in LeavesOf(m);
      assert (leaf.0, last.value) in LeavesOf(o) && (leaf.0, Last(LeavesOf(m), leaf.0).value) in LeavesOf(m);
    }
    AsksExactly(o, m);
  }

  /** Without dots in the keys a dotted name is a path, so there is no clash. */
  lemma NoDotsNoClash(s: Fields, o: Fields)
    requires Proper(s) && NoDots(s) && Proper(o) && NoDots(o) && DeepUpdate(s, o).Some?
    ensures NoClash(o, DeepUpdate(s, o).value)
  {
    var m := DeepUpdate(s, o).value;
    UpdateKeeps(s, o);
    forall a, b | a in LeavesOf(o) && b in LeavesOf(m) && a.0 == b.0 ensures a.1 == b.1 {
      var p := LeafAtPath(o, "", a);
      var q := LeafAtPath(m, "", b);
      assert "" + Dotted(p) == Dotted(p) && "" + Dotted(q) == Dotted(q);
      SplitJoin(p, '.');
      SplitJoin(q, '.');
      LeafSurvives(s, o, p);
    }
  }

  /** With a dotted key next to a nested one the same response asks for the same write for ever: each writes back
      what was there. */
  lemma DottedKeysNeverSettle() returns (s: Fields, o: Fields, m: Fields)
    ensures Proper(s) && Proper(o) && Check(o, s) == Written(m) && Check(o, m) == Written(m)
  {
    var nested1, nested2 := Cons("b", Leaf(Number(1)), Nil), Cons("b", Leaf(Number(2)), Nil);
    s := Cons("a", Obj(nested1), Nil);
    o := Cons("a.b", Leaf(Number(3)), Cons("a", Obj(nested2), Nil));
    m := Cons("a", Obj(nested2), Cons("a.b", Leaf(Number(3)), Nil));
    assert DeepUpdate(nested1, nested2) == Some(nested2);
    assert DeepUpdate(s, o) == Some(m);
    Converges(s, o);
    var name := "" + "a" + ".";
    assert name + "b" == "" + "a.b" == "a.b";
    assert Flatten(s) == map["a.b" := Number(1)];
    assert Flatten(o) == map["a.b" := Number(2)];
    assert Flatten(m) == map["a.b" := Number(3)];
    assert "a.b" in Flatten(o);
    assert AsksToWrite(o, s) && AsksToWrite(o, m);
    assert RemovePlaceHolders(o) == Some(o);
  }

  // ----- the whole check -----

  function Remove(f: Fields, k: string): Fields {
    match f
    case Nil => Nil
    case Cons(key, value, rest) => if key == k then rest else Cons(key, value, Remove(rest, k))
  }

  /** The access token and URL of the core section never come from the server. `None` when the section is not a mapping. */
  function RemovePlaceHolders(response: Fields): Option<Fields> {
    match Get(response, "core")
    case None => Some(response)
    case Some(core) =>
      if core == Leaf(Null) then Some(response)
      else if !core.Obj? then None
      else
        var left := Remove(Remove(core.fields, "databand_access_token"), "databand_url");
        Some(if left.Nil? then Remove(response, "core") else Put(response, "core", Obj(left)))
  }

  datatype Checked = Raised | Kept | Written(extra: Fields)

  function Check(response: Fields, current: Fields): Checked {
    match RemovePlaceHolders(response)
    case None => Raised
    case Some(o) =>
      if !AsksToWrite(o, current) then Kept
      else match DeepUpdate(current, o) case None => Raised case Some(m) => Written(m)
  }

  lemma {:induction false} GetRemove(f: Fields, k: string, j: string)
    requires Proper(f)
    ensures Get(Remove(f, k), j) == if j == k then None else Get(f, j)
    ensures Proper(Remove(f, k)) && (NoDots(f) ==> NoDots(Remove(f, k)))
  {
    if f.Cons? {
      GetRemove(f.rest, k, j);
      if f.key != k {
        GetRemove(f.rest, k, f.key);
      }
    }
  }

  lemma RemovePlaceHoldersKeeps(response: Fields)
    requires Proper(response) && RemovePlaceHolders(response).Some?
    ensures Proper(RemovePlaceHolders(response).value)
    ensures NoDots(response) ==> NoDots(RemovePlaceHolders(response).value)
  {
    if Get(response, "core").Some? && Get(response, "core").value.Obj? {
      var core := Get(response, "core").value.fields;
      ProperUnder(response, "core");
      if NoDots(response) {
        NoDotsUnder(response, "core");
      }
      GetRemove(core, "databand_access_token", "");
      GetRemove(Remove(core, "databand_access_token"), "databand_url", "");
      GetRemove(response, "core", "");
      PutKeeps(response, "core", Obj(Remove(Remove(core, "databand_access_token"), "databand_url")));
    }
  }

  const PLACE_HOLDERS: seq<string> := ["databand_access_token", "databand_url"]

  /** It raises exactly when there is a core section that is neither null nor a mapping. */
  lemma RemovingRaisesExactly(response: Fields)
    ensures RemovePlaceHolders(response).None? <==>
            Get(response, "core").Some? && Get(response, "core").value != Leaf(Null) && !Get(response, "core").value.Obj?
  {
  }

  /** Exactly the two place holders go: at every path but theirs and the section's own, everything is as it was. The section
      itself goes when nothing else was in it. */
  lemma RemovesExactly(response: Fields, p: Path)
    requires p != [] && Proper(response) && RemovePlaceHolders(response).Some?
    ensures var o := RemovePlaceHolders(response).value;
            if p[0] != "core" then At(o, p) == At(response, p)
            else if |p| > 1 then At(o, p) == if p[1] in PLACE_HOLDERS then None else At(response, p)
            else if Get(response, "core").Some? && Get(response, "core").value.Obj? then
              && (At(o, p).Some? <==> exists k :: k !in PLACE_HOLDERS && At(response, ["core", k]).Some?)
              && (At(o, p).Some? ==> At(o, p).value.Obj?)
            else At(o, p) == At(response, p)
  {
    if Get(response, "core").Some? && Get(response, "core").value.Obj? {
      var core := Get(response, "core").value.fields;
      var left := Remove(Remove(core, "databand_access_token"), "databand_url");
      ProperUnder(response, "core");
      GetRemove(response, "core", p[0]);
      GetPut(response, "core", Obj(left), p[0]);
      LeftInCore(core);
      if |p| > 1 {
        LeftAt(core, p[1..]);
      } else if p[0] == "core" {
        forall k ensures At(response, ["core", k]) == Get(core, k) {
          assert ["core", k][1..] == [k];
        }
        assert left.Cons? ==> Get(left, left.key).Some?;
      }
    }
  }

  /** What is left of the core section. */
  lemma LeftInCore(core: Fields)
    requires Proper(core)
    ensures var left := Remove(Remove(core, "databand_access_token"), "databand_url");
            forall k :: Get(left, k) == if k in PLACE_HOLDERS then None else Get(core, k)
  {
    var left := Remove(Remove(core, "databand_access_token"), "databand_url");
    forall k ensures Get(left, k) == if k in PLACE_HOLDERS then None else Get(core, k) {
      GetRemove(core, "databand_access_token", k);
      GetRemove(Remove(core, "databand_access_token"), "databand_url", k);
    }
  }

  lemma LeftAt(core: Fields, q: Path)
    requires q != [] && Proper(core)
    ensures var left := Remove(Remove(core, "databand_access_token"), "databand_url");
            At(left, q) == if q[0] in PLACE_HOLDERS then None else At(core, q)
  {
    LeftInCore(core);
  }

  /** The check raises exactly when removing does, or when a write is asked for and the trees are not compatible; without a
      write asked for it keeps what was there. */
  lemma CheckExactly(response: Fields, current: Fields)
    requires Proper(response)
    ensures var o := RemovePlaceHolders(response);
            && (Check(response, current) == Raised <==>
                  o.None? || (AsksToWrite(o.value, current) && !Compatible(current, o.value)))
            && (Check(response, current) == Kept <==> o.Some? && !AsksToWrite(o.value, current))
            && (Check(response, current).Written? ==>
                  forall p | p != [] && Overrides(o.value, p) :: At(Check(response, current).extra, p) == At(o.value, p))
  {
    if RemovePlaceHolders(response).Some? {
      var o := RemovePlaceHolders(response).value;
      RemovePlaceHoldersKeeps(response);
      RaisesExactly(current, o);
      if DeepUpdate(current, o).Some? {
        forall p | p != [] && Overrides(o, p) ensures At(DeepUpdate(current, o).value, p) == At(o, p) {
          OverlayRight(current, o, p);
        }
      }
    }
  }

  /** One check settles it: the next one with the same response finds nothing to write, unless leaves clash. */
  lemma CheckSettles(response: Fields, current: Fields)
    requires Proper(response) && Check(response, current).Written?
    requires NoClash(RemovePlaceHolders(response).value, Check(response, current).extra)
    ensures Check(response, Check(response, current).extra) == Kept
  {
    RemovePlaceHoldersKeeps(response);
    NoFurtherWrite(current, RemovePlaceHolders(response).value);
  }

  /** In particular when no key holds a dot. */
  lemma CheckSettlesWithoutDots(response: Fields, current: Fields)
    requires Proper(response) && NoDots(response) && Proper(current) && NoDots(current)
    requires Check(response, current).Written?
    ensures Check(response, Check(response, current).extra) == Kept
  {
    RemovePlaceHoldersKeeps(response);
    NoDotsNoClash(current, RemovePlaceHolders(response).value);
    CheckSettles(response, current);
  }

  /** The connection's own URL and access token survive, unless the response has null for the whole section. */
  lemma PlaceHoldersSurvive(response: Fields, current: Fields, k: string)
    requires k in {"databand_access_token", "databand_url"}
    requires Proper(response) && Check(response, current).Written?
    ensures var m := Check(response, current).extra;
            At(m, ["core", k]) == if Get(response, "core") == Some(Leaf(Null)) then None else At(current, ["core", k])
  {
    var o := RemovePlaceHolders(response).value;
    RemovePlaceHoldersKeeps(response);
    var p: Path := ["core", k];
    assert p[1..] == [k];
    OverlayRight(current, o, p);
    if Get(response, "core").Some? && Get(response, "core").value.Obj? {
      var core := Get(response, "core").value.fields;
      var left := Remove(Remove(core, "databand_access_token"), "databand_url");
      ProperUnder(response, "core");
      GetRemove(core, "databand_access_token", k);
      GetRemove(Remove(core, "databand_access_token"), "databand_url", k);
      GetRemove(response, "core", "core");
      GetPut(response, "core", Obj(left), "core");
      assert Get(left, k).None?;
      if left.Cons? {
        assert Get(o, "core") == Some(Obj(left)) && !Overrides(left, [k]);
      }
      assert At(o, p).None?;
    }
  }
}
