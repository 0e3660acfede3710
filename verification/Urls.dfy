/** URLs as text and as parts: `urlparse` and `urlunparse` for the schemes the composite URIs use. */
module Urls {
  import opened Common
  import opened PercentEncoding
  import opened Strings

  // ----- splitting text without losing anything -----

  /** The scheme is empty when there is none; an absent query differs from an empty one. */
  datatype Parts = Parts(scheme: Text, netloc: Option<Text>, path: Text, query: Option<Text>, fragment: Option<Text>)

  predicate SchemeByte(c: Byte) {
    'A' <= c <= 'Z' || 'a' <= c <= 'z' || '0' <= c <= '9' || c in {'+', '-', '.'}
  }

  /** The characters of a scheme, one by one. */
  lemma SchemeBytes(c: Byte)
    ensures SchemeByte(c) <==> c in {
      '0', '1', '2', '3', '4', '5', '6', '7', '8', '9', '+', '-', '.',
      'a', 'b', 'c', 'd', 'e', 'f', 'g', 'h', 'i', 'j', 'k', 'l', 'm', 'n', 'o', 'p', 'q', 'r', 's', 't', 'u', 'v', 'w', 'x', 'y', 'z',
      'A', 'B', 'C', 'D', 'E', 'F', 'G', 'H', 'I', 'J', 'K', 'L', 'M', 'N', 'O', 'P', 'Q', 'R', 'S', 'T', 'U', 'V', 'W', 'X', 'Y', 'Z'}
  {
  }

  predicate EndsAuthority(c: Byte) {
    c in {'/', '?', '#'}
  }

  function AuthorityEnd(s: Text): (i: nat)
    ensures i <= |s| && (forall c | c in s[..i] :: !EndsAuthority(c)) && (i < |s| ==> EndsAuthority(s[i]))
  {
    if s == [] || EndsAuthority(s[0]) then 0 else 1 + AuthorityEnd(s[1..])
  }

  lemma CutAt(s: Text, i: nat)
    requires i < |s|
    ensures s == s[..i] + [s[i]] + s[i + 1..] && s == s[..i] + ([s[i]] + s[i + 1..])
  {
  }

  lemma Cut(s: Text, i: nat)
    requires i <= |s|
    ensures s == s[..i] + s[i..]
  {
  }

  lemma CutTwo(s: Text)
    requires |s| >= 2
    ensures s == [s[0], s[1]] + s[2..]
  {
  }

  function Prefixed(c: Byte, s: Option<Text>): Text {
    match s case None => [] case Some(t) => [c] + t
  }

  /** What is before the first `c`, and what is after it if there is one. */
  function SplitOnce(s: Text, c: Byte): (r: (Text, Option<Text>))
    ensures c !in r.0 && s == r.0 + Prefixed(c, r.1)
    ensures s != [] && s[0] != c ==> r.0 != [] && r.0[0] == s[0]
  {
    var i := IndexOf<Byte>(s, c);
    if i < |s| then CutAt(s, i); (s[..i], Some(s[i + 1..])) else (s, None)
  }

  lemma SplitOnceText(a: Text, c: Byte, b: Option<Text>)
    requires c !in a
    ensures SplitOnce(a + Prefixed(c, b), c) == (a, b)
  {
    var s := a + Prefixed(c, b);
    if b.Some? {
      assert s == a + [c] + b.value;
      IndexOfFirst<Byte>(a, c, b.value);
    } else {
      assert s == a;
      IndexOfNone<Byte>(a, c);
    }
  }

  function ScanTail(scheme: Text, netloc: Option<Text>, tail: Text): Parts {
    var (front, fragment) := SplitOnce(tail, '#');
    var (path, query) := SplitOnce(front, '?');
    Parts(scheme, netloc, path, query, fragment)
  }

  predicate StartsSlashes(s: Text) {
    |s| >= 2 && s[0] == '/' && s[1] == '/'
  }

  function ScanAuthority(scheme: Text, rest: Text): Parts {
    if StartsSlashes(rest) then
      var i := AuthorityEnd(rest[2..]);
      ScanTail(scheme, Some(rest[2..][..i]), rest[2..][i..])
    else ScanTail(scheme, None, rest)
  }

  function Scan(u: Text): Parts {
    var i := IndexOf<Byte>(u, ':');
    if 0 < i < |u| && forall c | c in u[..i] :: SchemeByte(c) then ScanAuthority(u[..i], u[i + 1..])
    else ScanAuthority([], u)
  }

  function TailText(path: Text, query: Option<Text>, fragment: Option<Text>): Text {
    path + Prefixed('?', query) + Prefixed('#', fragment)
  }

  function WithAuthority(netloc: Option<Text>, tail: Text): Text {
    match netloc case None => tail case Some(n) => ['/', '/'] + (n + tail)
  }

  /** The text of parts that have a scheme. */
  function ToText(p: Parts): Text {
    p.scheme + [':'] + WithAuthority(p.netloc, TailText(p.path, p.query, p.fragment))
  }

  /** A path after an authority is empty or starts with a slash; one without does not look like an authority. */
  ghost predicate PathOk(netloc: Option<Text>, path: Text) {
    && '?' !in path && '#' !in path
    && (if netloc.Some? then path == [] || path[0] == '/' else !StartsSlashes(path))
  }

  ghost predicate PartsOk(p: Parts) {
    && p.scheme != [] && (forall c | c in p.scheme :: SchemeByte(c))
    && (p.netloc.Some? ==> forall c | c in p.netloc.value :: !EndsAuthority(c))
    && PathOk(p.netloc, p.path)
    && (p.query.Some? ==> '#' !in p.query.value)
  }

  lemma ScanTailText(scheme: Text, netloc: Option<Text>, path: Text, query: Option<Text>, fragment: Option<Text>)
    requires '?' !in path && '#' !in path && (query.Some? ==> '#' !in query.value)
    ensures ScanTail(scheme, netloc, TailText(path, query, fragment)) == Parts(scheme, netloc, path, query, fragment)
  {
    SplitOnceText(path + Prefixed('?', query), '#', fragment);
    SplitOnceText(path, '?', query);
  }

  lemma {:induction false} AuthorityEndText(netloc: Text, tail: Text)
    requires forall c | c in netloc :: !EndsAuthority(c)
    requires tail == [] || EndsAuthority(tail[0])
    ensures AuthorityEnd(netloc + tail) == |netloc|
  {
    if netloc == [] {
      assert netloc + tail == tail;
    } else {
      assert (netloc + tail)[1..] == netloc[1..] + tail;
      AuthorityEndText(netloc[1..], tail);
    }
  }

  lemma ScanAuthorityText(p: Parts)
    requires PartsOk(p)
    ensures ScanAuthority(p.scheme, WithAuthority(p.netloc, TailText(p.path, p.query, p.fragment))) == p
  {
    var tail := TailText(p.path, p.query, p.fragment);
    ScanTailText(p.scheme, p.netloc, p.path, p.query, p.fragment);
    if p.netloc.Some? {
      var netloc := p.netloc.value;
      assert (['/', '/'] + (netloc + tail))[2..] == netloc + tail;
      AuthorityEndText(netloc, tail);
      assert (netloc + tail)[..|netloc|] == netloc && (netloc + tail)[|netloc|..] == tail;
    } else {
      SlashesInPath(p.path, p.query, p.fragment);
    }
  }

  lemma SlashesInPath(path: Text, query: Option<Text>, fragment: Option<Text>)
    ensures StartsSlashes(TailText(path, query, fragment)) <==> StartsSlashes(path)
  {
    var tail := TailText(path, query, fragment);
    if |path| < 2 && |tail| > |path| {
      assert tail[|path|] == '?' || tail[|path|] == '#';
    }
  }

  lemma TakeDrop(a: Text, c: Byte, b: Text)
    ensures (a + [c] + b)[..|a|] == a && (a + [c] + b)[|a| + 1..] == b
  {
  }

  lemma SchemeHasNoColon(scheme: Text)
    requires forall c | c in scheme :: SchemeByte(c)
    ensures ':' !in scheme
  {
  }

  /** Scanning the text of well-formed parts gives the parts back. */
  lemma ScanText(p: Parts)
    requires PartsOk(p)
    ensures Scan(ToText(p)) == p
  {
    var rest := WithAuthority(p.netloc, TailText(p.path, p.query, p.fragment));
    SchemeHasNoColon(p.scheme);
    IndexOfFirst<Byte>(p.scheme, ':', rest);
    TakeDrop(p.scheme, ':', rest);
    ScanAuthorityText(p);
  }

  lemma ScanAfterScheme(scheme: Text, rest: Text)
    requires scheme != [] && forall c | c in scheme :: SchemeByte(c)
    ensures Scan(scheme + [':'] + rest) == ScanAuthority(scheme, rest)
  {
    SchemeHasNoColon(scheme);
    IndexOfFirst<Byte>(scheme, ':', rest);
    TakeDrop(scheme, ':', rest);
  }

  lemma TextScanTail(scheme: Text, netloc: Option<Text>, tail: Text)
    ensures var p := ScanTail(scheme, netloc, tail);
            && p.scheme == scheme && p.netloc == netloc && '?' !in p.path && '#' !in p.path
            && (p.query.Some? ==> '#' !in p.query.value)
            && TailText(p.path, p.query, p.fragment) == tail
            && (tail == [] || EndsAuthority(tail[0]) ==> p.path == [] || p.path[0] == '/')
  {
  }

  lemma TextScanAuthority(scheme: Text, rest: Text)
    ensures var p := ScanAuthority(scheme, rest);
            && p.scheme == scheme && (p.netloc.Some? ==> forall c | c in p.netloc.value :: !EndsAuthority(c))
            && PathOk(p.netloc, p.path) && (p.query.Some? ==> '#' !in p.query.value)
            && rest == WithAuthority(p.netloc, TailText(p.path, p.query, p.fragment))
  {
    if StartsSlashes(rest) {
      var body := rest[2..];
      var k := AuthorityEnd(body);
      TextScanTail(scheme, Some(body[..k]), body[k..]);
      Cut(body, k);
      CutTwo(rest);
    } else {
      var p := ScanTail(scheme, None, rest);
      TextScanTail(scheme, None, rest);
      SlashesInPath(p.path, p.query, p.fragment);
    }
  }

  /** Nothing is lost: the text of the scanned parts is the text that was scanned. */
  lemma TextScan(u: Text)
    requires Scan(u).scheme != []
    ensures PartsOk(Scan(u)) && ToText(Scan(u)) == u
  {
    var i := IndexOf<Byte>(u, ':');
    if 0 < i < |u| && forall c | c in u[..i] :: SchemeByte(c) {
      TextScanAuthority(u[..i], u[i + 1..]);
      CutAt(u, i);
    } else {
      TextScanAuthority([], u);
    }
  }

  /** The same of text without a scheme. */
  lemma TextScanBare(u: Text)
    requires Scan(u).scheme == []
    ensures var p := Scan(u); WithAuthority(p.netloc, TailText(p.path, p.query, p.fragment)) == u
  {
    TextScanAuthority([], u);
  }

  // ----- the parsed form -----

  /** What `urlparse` returns: every component is text, empty when absent. */
  datatype Url = Url(scheme: Text, netloc: Text, path: Text, params: Text, query: Text, fragment: Text)

  const HTTP: Text := "http"
  const HTTPS: Text := "https"

  predicate Web(scheme: Text) {
    scheme == HTTP || scheme == HTTPS
  }

  function LowerByte(c: Byte): Byte {
    if 'A' <= c <= 'Z' then (c as int + 32) as char else c
  }

  /** Only capital letters change. */
  lemma Lowered(n: nat, c: Byte)
    requires n < 26
    ensures LowerByte("ABCDEFGHIJKLMNOPQRSTUVWXYZ"[n]) == "abcdefghijklmnopqrstuvwxyz"[n]
    ensures LowerByte(c) != c ==> 'A' <= c <= 'Z'
  {
  }

  function Lower(s: Text): (r: Text)
    ensures |r| == |s| && forall i | 0 <= i < |s| :: r[i] == LowerByte(s[i])
  {
    if s == [] then [] else [LowerByte(s[0])] + Lower(s[1..])
  }

  function OrEmpty(s: Option<Text>): Text {
    match s case None => [] case Some(t) => t
  }

  /** The start of the last segment of a path, at its slash if it has one. */
  function LastSegment(path: Text): (i: nat)
    ensures i <= |path|
  {
    if '/' !in path then 0
    else if path[|path| - 1] == '/' then |path| - 1
    else LastSegment(path[..|path| - 1])
  }

  /** Where the parameters of the last segment begin: its first semicolon, or the end of the path. */
  function ParamsAt(path: Text): (i: nat)
    ensures i <= |path| && (i < |path| ==> path[i] == ';')
  {
    var k := LastSegment(path);
    k + IndexOf<Byte>(path[k..], ';')
  }

  lemma {:induction false} LastSegmentAt(folder: Text, name: Text)
    requires folder != [] && folder[|folder| - 1] == '/' && '/' !in name
    ensures LastSegment(folder + name) == |folder| - 1
    decreases |name|
  {
    if name == [] {
      assert folder + name == folder;
    } else {
      var path := folder + name;
      assert path[|folder| - 1] == '/' && path[|path| - 1] == name[|name| - 1];
      assert path[..|path| - 1] == folder + name[..|name| - 1];
      LastSegmentAt(folder, name[..|name| - 1]);
    }
  }

  /** The parameters begin at the first semicolon of the last segment. */
  lemma ParamsExactly(folder: Text, name: Text)
    requires (folder == [] || folder[|folder| - 1] == '/') && '/' !in name
    ensures ParamsAt(folder + name) == |folder| + IndexOf<Byte>(name, ';')
  {
    var path := folder + name;
    if folder == [] {
      assert path == name && path[0..] == name;
    } else {
      LastSegmentAt(folder, name);
      assert path[|folder| - 1..] == ['/'] + name;
      assert (['/'] + name)[1..] == name;
    }
  }

  /** Only the web schemes have parameters, among those that get any further. */
  function FromParts(p: Parts): Url {
    var scheme := Lower(p.scheme);
    var i := if Web(scheme) then ParamsAt(p.path) else |p.path|;
    Url(scheme, OrEmpty(p.netloc), p.path[..i], if i < |p.path| then p.path[i + 1..] else [],
        OrEmpty(p.query), OrEmpty(p.fragment))
  }

  function UrlParse(u: Text): Url {
    FromParts(Scan(u))
  }

  function FullPath(path: Text, params: Text): Text {
    if params == [] then path else path + [';'] + params
  }

  function Slashed(path: Text): Text {
    if path != [] && path[0] != '/' then ['/'] + path else path
  }

  /** A slash is put before a path that has none. */
  lemma SlashedExactly(path: Text)
    ensures Slashed(path) == path <==> path == [] || path[0] == '/'
    ensures Slashed(path) != path ==> Slashed(path) == ['/'] + path
  {
    assert path != [] && Slashed(path) != path ==> |Slashed(path)| == |path| + 1;
  }

  function WithNetloc(url: Url, path: Text): Text {
    if url.netloc != [] || (Web(url.scheme) && !StartsSlashes(path)) then ['/', '/'] + (url.netloc + Slashed(path)) else path
  }

  /** An empty component leaves no trace in the text. */
  function UrlUnparse(url: Url): Text {
    (if url.scheme == [] then [] else url.scheme + [':'])
    + WithNetloc(url, FullPath(url.path, url.params))
    + (if url.query == [] then [] else ['?'] + url.query)
    + (if url.fragment == [] then [] else ['#'] + url.fragment)
  }

  function NonEmpty(s: Text): Option<Text> {
    if s == [] then None else Some(s)
  }

  /** The authority and path that are read back for an authority and path that were written: a web URL gets an empty
      authority if it has none, and a path that starts with two slashes is read as an authority. */
  function Placed(scheme: Text, netloc: Text, path: Text): (Option<Text>, Text) {
    if netloc != [] then (Some(netloc), Slashed(path))
    else if StartsSlashes(path) then
      var i := AuthorityEnd(path[2..]);
      (Some(path[2..][..i]), path[2..][i..])
    else if Web(scheme) then (Some([]), Slashed(path))
    else (None, path)
  }

  lemma PlacedText(scheme: Text, netloc: Text, path: Text, tail: Text)
    ensures var (n, r) := Placed(scheme, netloc, path);
            WithNetloc(Url(scheme, netloc, path, [], [], []), path) + tail == WithAuthority(n, r + tail)
  {
    var (n, r) := Placed(scheme, netloc, path);
    if netloc == [] && StartsSlashes(path) {
      var body := path[2..];
      Cut(body, AuthorityEnd(body));
      CutTwo(path);
    }
    if n.Some? {
      Associate(['/', '/'], n.value + r, tail);
      Associate(n.value, r, tail);
    }
  }

  lemma PlacedOk(scheme: Text, netloc: Text, path: Text)
    requires '?' !in path && '#' !in path && forall c | c in netloc :: !EndsAuthority(c)
    ensures var (n, r) := Placed(scheme, netloc, path);
            PathOk(n, r) && (n.Some? ==> forall c | c in n.value :: !EndsAuthority(c))
  {
    var (n, r) := Placed(scheme, netloc, path);
    if netloc == [] && StartsSlashes(path) {
      assert forall c | c in r :: c in path;
    }
  }

  lemma Associate(a: Text, b: Text, c: Text)
    ensures (a + b) + c == a + (b + c)
  {
  }

  /** The text written for any URL with a scheme is that of its non-empty parts, with authority and path as they will be read. */
  lemma UnparseText(url: Url)
    requires url.scheme != []
    ensures var (n, r) := Placed(url.scheme, url.netloc, FullPath(url.path, url.params));
            UrlUnparse(url) == ToText(Parts(url.scheme, n, r, NonEmpty(url.query), NonEmpty(url.fragment)))
  {
    var path := FullPath(url.path, url.params);
    var q, f := Prefixed('?', NonEmpty(url.query)), Prefixed('#', NonEmpty(url.fragment));
    var front, middle := url.scheme + [':'], WithNetloc(url, path);
    var (n, r) := Placed(url.scheme, url.netloc, path);
    PlacedText(url.scheme, url.netloc, path, q + f);
    assert UrlUnparse(url) == front + middle + q + f;
    Associate(front + middle, q, f);
    Associate(front, middle, q + f);
    Associate(r, q, f);
  }

  /** A URL without a scheme is written without its colon. */
  lemma UnparseBare(url: Url)
    requires url.scheme == []
    ensures UrlUnparse(url) == WithNetloc(url, FullPath(url.path, url.params))
                               + Prefixed('?', NonEmpty(url.query)) + Prefixed('#', NonEmpty(url.fragment))
  {
  }

  /** What splitting off the parameters and putting them back makes of a path. */
  function Rejoined(path: Text): Text {
    var i := ParamsAt(path);
    FullPath(path[..i], if i < |path| then path[i + 1..] else [])
  }

  /** Only an empty parameter list is lost. */
  lemma RejoinedExactly(path: Text)
    ensures Rejoined(path) == path <==> ParamsAt(path) + 1 != |path|
    ensures Rejoined(path) <= path && (Rejoined(path) != path ==> path == Rejoined(path) + [';'])
  {
    var i := ParamsAt(path);
    if i + 1 < |path| {
      CutAt(path, i);
    } else if i + 1 == |path| {
      CutAt(path, i);
      assert path[i + 1..] == [];
    }
  }

  lemma RejoinedOk(netloc: Option<Text>, path: Text)
    requires PathOk(netloc, path)
    ensures PathOk(netloc, Rejoined(path))
    ensures StartsSlashes(Rejoined(path)) <==> StartsSlashes(path)
  {
    RejoinedExactly(path);
    assert forall c | c in Rejoined(path) :: c in path;
  }
}
