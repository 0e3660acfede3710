/** A tracking store URL that carries, as a query parameter, the URI to duplicate tracking data to. */
module CompositeUri {
  import opened Common
  import opened PercentEncoding
  import opened FormQuery
  import opened Urls

  const DUPLICATE: Text := "duplicate_tracking_to"
  const DBND: Text := "dbnd"
  const DBND_S: Text := "dbnd+s"
  const DATABAND: Text := "databand"
  const DATABAND_S: Text := "databand+s"

  function WebToDbnd(scheme: Text): Option<Text> {
    if scheme == HTTP then Some(DBND) else if scheme == HTTPS then Some(DBND_S) else None
  }

  function DbndToWeb(scheme: Text): Option<Text> {
    if scheme == DBND || scheme == DATABAND then Some(HTTP)
    else if scheme == DBND_S || scheme == DATABAND_S then Some(HTTPS)
    else None
  }

  predicate IsCompositeUri(uri: Text) {
    DbndToWeb(UrlParse(uri).scheme).Some?
  }

  /** `None` when the scheme is not one of the web's. */
  function Build(storeUrl: Text, duplicateTo: Option<Text>): Option<Text> {
    var url := UrlParse(storeUrl);
    match WebToDbnd(url.scheme)
    case None => None
    case Some(scheme) =>
      var d := QueryDict(url.query);
      var e := if duplicateTo.Some? then Put(d, DUPLICATE, Quote(duplicateTo.value)) else d;
      Some(UrlUnparse(url.(scheme := scheme, query := UrlEncode(e))))
  }

  /** The store URL and the URI to duplicate to. The query layer has already decoded the value once. */
  function Parse(uri: Text): Option<(Text, Option<Text>)> {
    var url := UrlParse(uri);
    match DbndToWeb(url.scheme)
    case None => None
    case Some(scheme) =>
      var d := QueryDict(url.query);
      Some((UrlUnparse(url.(scheme := scheme, query := UrlEncode(Remove(d, DUPLICATE)))), Decoded(Lookup(d, DUPLICATE))))
  }

  function Decoded(found: Option<Text>): Option<Text> {
    if found.Some? && found.value != [] then Some(Unquote(found.value)) else found
  }

  /** What a caller can check of a URL: its scheme is in lower case and followed by two slashes, but not by four, it has no
      dangling `?` or `#` and no empty parameters after its last segment, and its query is canonical and does not hold the
      reserved key. */
  ghost predicate Stable(u: Text) {
    StableParts(Scan(u))
  }

  ghost predicate StableParts(p: Parts) {
    && Web(p.scheme)
    && p.netloc.Some? && (p.netloc.value != [] || !StartsSlashes(p.path))
    && p.query != Some([]) && p.fragment != Some([])
    && ParamsAt(p.path) + 1 != |p.path|
    && CanonicalQuery(OrEmpty(p.query), DUPLICATE)
  }

  /** The parts of what is built: the authority and path of `p` written under a scheme that is not the web's. */
  function Out(p: Parts, scheme: Text, query: Text): Parts {
    var (netloc, path) := Placed(scheme, OrEmpty(p.netloc), Rejoined(p.path));
    Parts(scheme, netloc, path, NonEmpty(query), NonEmpty(OrEmpty(p.fragment)))
  }

  /** The parts of what comes back when those are written under a web scheme again. */
  function Back(p: Parts, web: Text, query: Text): Parts {
    var out := Out(p, DBND, query);
    var (netloc, path) := Placed(web, OrEmpty(out.netloc), out.path);
    Parts(web, netloc, path, NonEmpty(query), NonEmpty(OrEmpty(p.fragment)))
  }

  predicate LowScheme(s: Text) {
    s == [] || (SchemeByte(s[0]) && !('A' <= s[0] <= 'Z') && LowScheme(s[1..]))
  }

  lemma {:induction false} LowSchemeKept(s: Text)
    requires LowScheme(s)
    ensures Lower(s) == s && forall c | c in s :: SchemeByte(c)
  {
    if s != [] {
      LowSchemeKept(s[1..]);
      assert s == [s[0]] + s[1..];
    }
  }

  lemma SchemesKept(scheme: Text)
    requires scheme in {HTTP, HTTPS, DBND, DBND_S}
    ensures Lower(scheme) == scheme && scheme != [] && forall c | c in scheme :: SchemeByte(c)
  {
    assert LowScheme("http") && LowScheme("https") && LowScheme("dbnd") && LowScheme("dbnd+s");
    LowSchemeKept(scheme);
  }

  lemma LongSchemesKept(scheme: Text)
    requires scheme in {DATABAND, DATABAND_S}
    ensures Lower(scheme) == scheme && scheme != [] && forall c | c in scheme :: SchemeByte(c)
  {
    assert LowScheme("databand") && LowScheme("databand+s");
    LowSchemeKept(scheme);
  }

  lemma OutOk(p: Parts, scheme: Text, d: seq<Pair>)
    requires PartsOk(p) && scheme in {DBND, DBND_S}
    ensures PartsOk(Out(p, scheme, UrlEncode(d)))
  {
    SchemesKept(scheme);
    RejoinedOk(p.netloc, p.path);
    EncodedHasNoHash(d);
    PlacedOk(scheme, OrEmpty(p.netloc), Rejoined(p.path));
  }

  lemma BackOk(p: Parts, web: Text, d: seq<Pair>)
    requires PartsOk(p) && Web(web)
    ensures PartsOk(Back(p, web, UrlEncode(d)))
  {
    var out := Out(p, DBND, UrlEncode(d));
    SchemesKept(web);
    OutOk(p, DBND, d);
    PlacedOk(web, OrEmpty(out.netloc), out.path);
  }

  // ----- which scheme becomes which -----

  predicate EndsInS(scheme: Text) {
    |scheme| >= 2 && scheme[|scheme| - 2..] == "+s"
  }

  /** The URIs that are accepted: those of four schemes, in any case. */
  lemma AcceptedExactly(uri: Text)
    ensures IsCompositeUri(uri) <==> Lower(Scan(uri).scheme) in {"dbnd", "dbnd+s", "databand", "databand+s"}
    ensures IsCompositeUri(uri) <==> Parse(uri).Some?
  {
  }

  lemma UnparseScheme(url: Url)
    requires url.scheme != []
    ensures url.scheme + [':'] <= UrlUnparse(url)
  {
  }

  /** The URL that comes back is secure exactly when the URI's scheme ends in `+s`, whichever of the two names it has. */
  lemma ParseScheme(uri: Text)
    requires IsCompositeUri(uri)
    ensures var scheme: Text := if EndsInS(Lower(Scan(uri).scheme)) then "https" else "http";
            scheme + [':'] <= Parse(uri).value.0
  {
    var url := UrlParse(uri);
    var d := Remove(QueryDict(url.query), DUPLICATE);
    AcceptedExactly(uri);
    UnparseScheme(url.(scheme := DbndToWeb(url.scheme).value, query := UrlEncode(d)));
  }

  /** The other way round, and only the web's schemes are accepted. */
  lemma BuildScheme(u: Text, duplicateTo: Option<Text>)
    ensures Build(u, duplicateTo).Some? <==> Lower(Scan(u).scheme) in {"http", "https"}
    ensures Build(u, duplicateTo).Some? ==>
              var scheme: Text := if Lower(Scan(u).scheme) == "https" then "dbnd+s" else "dbnd";
              scheme + [':'] <= Build(u, duplicateTo).value
  {
    var url := UrlParse(u);
    if WebToDbnd(url.scheme).Some? {
      UnparseScheme(url.(scheme := WebToDbnd(url.scheme).value,
                         query := UrlEncode(DictToSend(OrEmpty(Scan(u).query), duplicateTo))));
    }
  }

  lemma ScanSchemeOnly(a: Text, b: Text, rest: Text)
    ensures ScanAuthority(a, rest).scheme == a && ScanAuthority(b, rest) == ScanAuthority(a, rest).(scheme := b)
  {
  }

  function Under(scheme: Text, rest: Text): Text {
    scheme + [':'] + rest
  }

  /** What is parsed of a URI after its scheme. */
  ghost function ParsedRest(rest: Text): Url {
    var p := ScanAuthority([], rest);
    Url([], OrEmpty(p.netloc), p.path, [], OrEmpty(p.query), OrEmpty(p.fragment))
  }

  lemma ParsedAs(scheme: Text, rest: Text)
    requires scheme != [] && Lower(scheme) == scheme && !Web(scheme) && forall c | c in scheme :: SchemeByte(c)
    ensures UrlParse(Under(scheme, rest)) == ParsedRest(rest).(scheme := scheme)
  {
    ScanAfterScheme(scheme, rest);
    ScanSchemeOnly([], scheme, rest);
    var path := ScanAuthority([], rest).path;
    assert path[..|path|] == path;
  }

  lemma SameMeaning(u: Text, v: Text, url: Url, a: Text, b: Text)
    requires UrlParse(u) == url.(scheme := a) && UrlParse(v) == url.(scheme := b)
    requires DbndToWeb(a).Some? && DbndToWeb(a) == DbndToWeb(b)
    ensures Parse(u) == Parse(v) && Parse(u).Some?
  {
  }

  lemma NamesAlike(a: Text, b: Text)
    requires (a == "databand" && b == "dbnd") || (a == "databand+s" && b == "dbnd+s")
    ensures ReadAs(a) && ReadAs(b) && DbndToWeb(a) == DbndToWeb(b)
  {
    LongSchemesKept(a);
    SchemesKept(b);
  }

  ghost predicate ReadAs(a: Text) {
    a != [] && Lower(a) == a && !Web(a) && (forall c | c in a :: SchemeByte(c)) && DbndToWeb(a).Some?
  }

  lemma ReadAlike(a: Text, b: Text, rest: Text)
    requires ReadAs(a) && ReadAs(b) && DbndToWeb(a) == DbndToWeb(b)
    ensures Parse(Under(a, rest)) == Parse(Under(b, rest)) && Parse(Under(a, rest)).Some?
  {
    ParsedAs(a, rest);
    ParsedAs(b, rest);
    SameMeaning(Under(a, rest), Under(b, rest), ParsedRest(rest), a, b);
  }

  /** The long names of the schemes mean the same as the short ones. */
  lemma SchemesAlike(a: Text, b: Text, rest: Text)
    requires (a == "databand" && b == "dbnd") || (a == "databand+s" && b == "dbnd+s")
    ensures Parse(Under(a, rest)) == Parse(Under(b, rest)) && Parse(Under(a, rest)).Some?
  {
    NamesAlike(a, b);
    ReadAlike(a, b, rest);
  }

  function DictToSend(q: Text, duplicateTo: Option<Text>): seq<Pair> {
    var d := QueryDict(q);
    if duplicateTo.Some? then Put(d, DUPLICATE, Quote(duplicateTo.value)) else d
  }

  lemma BuildText(u: Text, duplicateTo: Option<Text>)
    requires Web(Lower(Scan(u).scheme))
    ensures var p := Scan(u);
            Build(u, duplicateTo) == Some(ToText(Out(p, WebToDbnd(Lower(p.scheme)).value,
                                                     UrlEncode(DictToSend(OrEmpty(p.query), duplicateTo)))))
  {
    var p, url := Scan(u), UrlParse(u);
    var d := DictToSend(OrEmpty(p.query), duplicateTo);
    UnparseText(url.(scheme := WebToDbnd(url.scheme).value, query := UrlEncode(d)));
  }

  lemma FromOut(p: Parts, scheme: Text, q: Text)
    requires scheme in {DBND, DBND_S}
    ensures var out := Out(p, scheme, q);
            FromParts(out) == Url(scheme, OrEmpty(out.netloc), out.path, [], q, OrEmpty(p.fragment))
  {
    SchemesKept(scheme);
    var path := Out(p, scheme, q).path;
    assert path[..|path|] == path;
  }

  lemma SchemePairs(scheme: Text)
    requires Web(scheme)
    ensures WebToDbnd(scheme).Some? && WebToDbnd(scheme).value in {DBND, DBND_S}
    ensures DbndToWeb(WebToDbnd(scheme).value) == Some(scheme)
    ensures !Web(WebToDbnd(scheme).value)
  {
  }

  lemma PlacedAlike(scheme: Text, netloc: Text, path: Text)
    requires !Web(scheme)
    ensures Placed(scheme, netloc, path) == Placed(DBND, netloc, path)
  {
  }

  lemma BackText(p: Parts, web: Text, scheme: Text, q: Text, r: Text)
    requires Web(web) && scheme in {DBND, DBND_S}
    ensures var out := Out(p, scheme, q);
            UrlUnparse(Url(web, OrEmpty(out.netloc), out.path, [], r, OrEmpty(p.fragment))) == ToText(Back(p, web, r))
  {
    var out := Out(p, scheme, q);
    PlacedAlike(scheme, OrEmpty(p.netloc), Rejoined(p.path));
    assert out.netloc == Out(p, DBND, r).netloc && out.path == Out(p, DBND, r).path;
    BackTextOf(p, web, out.netloc, out.path, r);
  }

  lemma BackTextOf(p: Parts, web: Text, netloc: Option<Text>, path: Text, r: Text)
    requires Web(web) && netloc == Out(p, DBND, r).netloc && path == Out(p, DBND, r).path
    ensures UrlUnparse(Url(web, OrEmpty(netloc), path, [], r, OrEmpty(p.fragment))) == ToText(Back(p, web, r))
  {
    UnparseText(Url(web, OrEmpty(netloc), path, [], r, OrEmpty(p.fragment)));
  }

  lemma ParsedUrl(uri: Text, web: Text, url: Url)
    requires UrlParse(uri) == url && DbndToWeb(url.scheme) == Some(web)
    ensures IsCompositeUri(uri)
    ensures var e := QueryDict(url.query);
            Parse(uri) == Some((UrlUnparse(url.(scheme := web, query := UrlEncode(Remove(e, DUPLICATE)))),
                                Decoded(Lookup(e, DUPLICATE))))
  {
  }

  lemma ParseText(p: Parts, web: Text, d: seq<Pair>)
    requires PartsOk(p) && Web(web)
    ensures var text, e := ToText(Out(p, WebToDbnd(web).value, UrlEncode(d))), QueryDict(UrlEncode(d));
            && IsCompositeUri(text)
            && Parse(text) == Some((ToText(Back(p, web, UrlEncode(Remove(e, DUPLICATE)))), Decoded(Lookup(e, DUPLICATE))))
  {
    SchemePairs(web);
    var scheme, q := WebToDbnd(web).value, UrlEncode(d);
    var out := Out(p, scheme, q);
    OutOk(p, scheme, d);
    ScanText(out);
    FromOut(p, scheme, q);
    ParsedUrl(ToText(out), web, Url(scheme, OrEmpty(out.netloc), out.path, [], q, OrEmpty(p.fragment)));
    BackText(p, web, scheme, q, UrlEncode(Remove(QueryDict(q), DUPLICATE)));
  }

  /** A URL's authority and path come back exactly when it has an authority, if perhaps an empty one that the path does
      not pass for, and no empty parameters. */
  lemma PlacedTwice(p: Parts, web: Text, q: Text)
    requires PartsOk(p) && Web(web)
    ensures var back := Back(p, web, q);
            back.netloc == p.netloc && back.path == p.path <==>
            p.netloc.Some? && (p.netloc.value != [] || !StartsSlashes(p.path)) && Rejoined(p.path) == p.path
  {
    RejoinedExactly(p.path);
    RejoinedOk(p.netloc, p.path);
    if OrEmpty(p.netloc) == [] && StartsSlashes(p.path) {
      SlashesShrink(DBND, web, Rejoined(p.path));
    }
  }

  /** A path that passes for an authority never comes back: at least its two slashes are gone, or it became an authority. */
  lemma SlashesShrink(scheme: Text, web: Text, path: Text)
    requires StartsSlashes(path)
    ensures var (n, r) := Placed(scheme, [], path);
            n.Some? && var (m, s) := Placed(web, n.value, r); (m.Some? && m.value != []) || |s| < |path|
  {
    var (n, r) := Placed(scheme, [], path);
    assert |r| <= |path| - 2;
    assert r == [] || EndsAuthority(r[0]);
  }

  lemma SameScheme(scheme: Text)
    requires Web(Lower(scheme))
    ensures Lower(scheme) == scheme <==> Web(scheme)
  {
    if Web(scheme) {
      SchemesKept(scheme);
    }
  }

  /** An optional component is the same again exactly when it was not empty, and its text is the same. */
  lemma SameOption(s: Option<Text>, t: Text)
    ensures NonEmpty(t) == s <==> s != Some([]) && t == OrEmpty(s)
  {
  }

  lemma SameParts(p: Parts, q: Text)
    requires PartsOk(p) && Web(Lower(p.scheme)) && q == UrlEncode(Remove(QueryDict(OrEmpty(p.query)), DUPLICATE))
    ensures Back(p, Lower(p.scheme), q) == p <==> StableParts(p)
  {
    RejoinedExactly(p.path);
    PlacedTwice(p, Lower(p.scheme), q);
    CanonicalExactly(OrEmpty(p.query), DUPLICATE);
    SameScheme(p.scheme);
    SameOption(p.query, q);
    SameOption(p.fragment, OrEmpty(p.fragment));
  }

  /** The URL that comes back is the one that went in exactly when that one is stable. */
  lemma SameUrl(u: Text)
    requires Web(Lower(Scan(u).scheme))
    ensures var p := Scan(u);
            ToText(Back(p, Lower(p.scheme), UrlEncode(Remove(QueryDict(OrEmpty(p.query)), DUPLICATE)))) == u <==> Stable(u)
  {
    var p := Scan(u);
    var d := Remove(QueryDict(OrEmpty(p.query)), DUPLICATE);
    TextScan(u);
    BackOk(p, Lower(p.scheme), d);
    ScanText(Back(p, Lower(p.scheme), UrlEncode(d)));
    SameParts(p, UrlEncode(d));
  }

  lemma ReadBackQuery(q: Text, duplicateTo: Option<Text>)
    ensures var e := QueryDict(UrlEncode(DictToSend(q, duplicateTo)));
            && Remove(e, DUPLICATE) == Remove(QueryDict(q), DUPLICATE)
            && (duplicateTo.Some? || CanonicalQuery(q, DUPLICATE) ==>
                  Decoded(Lookup(e, DUPLICATE)) == Meant(duplicateTo))
  {
    if duplicateTo.Some? {
      ReadBackPut(q, DUPLICATE, Quote(duplicateTo.value));
      UnquoteQuote(duplicateTo.value);
    } else {
      ReadBack(q);
      if CanonicalQuery(q, DUPLICATE) {
        CanonicalIsEncoded(q, DUPLICATE);
        ToDictDistinct(ParseQsl(q));
        RemoveAbsent(QueryDict(q), DUPLICATE);
      }
    }
  }

  /** Absent and empty both read back as absent. */
  function Meant(duplicateTo: Option<Text>): Option<Text> {
    if duplicateTo == Some([]) then None else duplicateTo
  }

  lemma WhatComesBack(u: Text, duplicateTo: Option<Text>, e: seq<Pair>)
    requires Web(Lower(Scan(u).scheme))
    requires e == QueryDict(UrlEncode(DictToSend(OrEmpty(Scan(u).query), duplicateTo)))
    ensures Build(u, duplicateTo).Some? && IsCompositeUri(Build(u, duplicateTo).value)
    ensures Parse(Build(u, duplicateTo).value)
            == Some((ToText(Back(Scan(u), Lower(Scan(u).scheme), UrlEncode(Remove(e, DUPLICATE)))), Decoded(Lookup(e, DUPLICATE))))
  {
    TextScan(u);
    BuildText(u, duplicateTo);
    ParseText(Scan(u), Lower(Scan(u).scheme), DictToSend(OrEmpty(Scan(u).query), duplicateTo));
  }

  lemma BuiltIsWeb(u: Text, duplicateTo: Option<Text>)
    requires Build(u, duplicateTo).Some?
    ensures Web(Lower(Scan(u).scheme))
  {
  }

  /** Round trip: for every URL that is accepted the duplicate URI always comes back, and the URL comes back exactly when
      it is stable. */
  lemma RoundTrip(u: Text, duplicateTo: Option<Text>)
    requires Build(u, duplicateTo).Some?
    ensures IsCompositeUri(Build(u, duplicateTo).value)
    ensures Parse(Build(u, duplicateTo).value).Some?
    ensures duplicateTo.Some? ==> Parse(Build(u, duplicateTo).value).value.1 == Meant(duplicateTo)
    ensures Parse(Build(u, duplicateTo).value) == Some((u, Meant(duplicateTo))) <==> Stable(u)
  {
    var q := OrEmpty(Scan(u).query);
    BuiltIsWeb(u, duplicateTo);
    WhatComesBack(u, duplicateTo, QueryDict(UrlEncode(DictToSend(q, duplicateTo))));
    SameUrl(u);
    ReadBackQuery(q, duplicateTo);
  }
}
