/** File formats and compressions by extension: the registries, the extension a configuration prints, and reading one back. */
module TargetConfigs {
  import opened Common
  import opened Strings

  // ----- registries -----

  /** Both directions of one registry. */
  datatype Registry = Registry(extToName: map<string, string>, nameToExt: map<string, seq<string>>)

  const EMPTY := Registry(map[], map[])

  /** Without extensions, the name is its own extension. */
  function Given(name: string, extensions: seq<string>): seq<string> {
    if extensions == [] then [name] else extensions
  }

  function Claim(m: map<string, string>, extensions: seq<string>, name: string): map<string, string>
    decreases |extensions|
  {
    if extensions == [] then m else Claim(m[extensions[0] := name], extensions[1..], name)
  }

  function Register(r: Registry, name: string, extensions: seq<string>): Registry {
    Registry(Claim(r.extToName, Given(name, extensions), name), r.nameToExt[name := Given(name, extensions)])
  }

  /** An extension that is given is the name's afterwards, without any the name is; all other extensions and names are as
      before. */
  lemma RegisterExactly(r: Registry, name: string, extensions: seq<string>)
    ensures var now := Register(r, name, extensions);
            && now.nameToExt.Keys == r.nameToExt.Keys + {name}
            && now.nameToExt[name] == (if extensions != [] then extensions else [name])
            && (forall n | n in r.nameToExt && n != name :: now.nameToExt[n] == r.nameToExt[n])
            && (forall e | e in extensions || (extensions == [] && e == name) :: e in now.extToName && now.extToName[e] == name)
            && (forall e | e !in extensions && (extensions != [] || e != name) ::
                  (e in now.extToName <==> e in r.extToName) && (e in r.extToName ==> now.extToName[e] == r.extToName[e]))
  {
    ClaimIs(r.extToName, Given(name, extensions), name);
  }

  class FileExtensionMap {
    var extToName: map<string, string>
    var nameToExt: map<string, seq<string>>

    function Contents(): Registry
      reads this
    {
      Registry(extToName, nameToExt)
    }

    constructor ()
      ensures Contents() == EMPTY
    {
      extToName, nameToExt := map[], map[];
    }

    /** A later registration takes an extension over from an earlier one. */
    method RegisterExtension(name: string, extensions: seq<string>)
      modifies this
      ensures Contents() == Register(old(Contents()), name, extensions)
    {
      var given := Given(name, extensions);
      for i := 0 to |given|
        invariant nameToExt == old(nameToExt)
        invariant Claim(old(extToName), given, name) == Claim(extToName, given[i..], name)
      {
        assert given[i..][1..] == given[i + 1..];
        extToName := extToName[given[i] := name];
      }
      nameToExt := nameToExt[name := given];
    }
  }

  /** What holds of every registry made by registrations of named things. */
  ghost predicate Consistent(r: Registry) {
    && (forall n | n in r.nameToExt :: r.nameToExt[n] != [] && forall e | e in r.nameToExt[n] :: e in r.extToName)
    && (forall e | e in r.extToName :: r.extToName[e] in r.nameToExt && r.extToName[e] != "")
  }

  lemma {:induction false} ClaimIs(m: map<string, string>, extensions: seq<string>, name: string)
    ensures forall e :: e in Claim(m, extensions, name) <==> e in m || e in extensions
    ensures forall e :: e in Claim(m, extensions, name) ==>
              Claim(m, extensions, name)[e] == if e in extensions then name else m[e]
    decreases |extensions|
  {
    if extensions != [] {
      ClaimIs(m[extensions[0] := name], extensions[1..], name);
      assert forall e :: e in extensions <==> e == extensions[0] || e in extensions[1..];
    }
  }

  lemma RegisterKeepsConsistent(r: Registry, name: string, extensions: seq<string>)
    requires Consistent(r) && name != ""
    ensures Consistent(Register(r, name, extensions))
  {
    ClaimIs(r.extToName, Given(name, extensions), name);
  }

  // ----- printing -----

  function DefaultExtension(r: Registry, name: Option<string>): string {
    if name.None? || name.value == "" then ""
    else if name.value in r.nameToExt && r.nameToExt[name.value] != [] then
      var ext := r.nameToExt[name.value][0];
      if ext == "" then "" else "." + ext
    else "." + name.value
  }

  datatype Flag = Default | NoFlag

  datatype TargetConfig = TargetConfig(format: Option<string>, compression: Option<string>, folder: bool, flag: Flag, isBinary: bool)

  const FILE := TargetConfig(None, None, false, Default, false)

  const BINARY_FORMATS: seq<string> := ["h5", "feather", "npy", "xlsx", "parquet", "pickle", "tfmodel"]

  function WithFormat(c: TargetConfig, format: string): TargetConfig {
    c.(format := Some(format), isBinary := format in BINARY_FORMATS)
  }

  function WithCompression(c: TargetConfig, compression: string): TargetConfig {
    c.(compression := Some(compression))
  }

  /** Both extensions come from the registry of formats, and the compression is printed for every format: the exception meant
      for two of them compares names with configurations, which are never equal. */
  function GetExt(formats: Registry, c: TargetConfig): string {
    DefaultExtension(formats, c.format) + DefaultExtension(formats, c.compression)
  }

  /** How a configuration prints: a folder ends in a slash. */
  function Repr(formats: Registry, c: TargetConfig): string {
    GetExt(formats, c) + if c.folder then "/" else ""
  }

  // ----- reading -----

  function NormalizeStep(absolute: bool, done: seq<string>, component: string): seq<string> {
    if component == "" || component == "." then done
    else if component != ".." || (!absolute && done == []) || (done != [] && done[|done| - 1] == "..") then done + [component]
    else if done != [] then done[..|done| - 1]
    else done
  }

  function Normalize(absolute: bool, done: seq<string>, components: seq<string>): seq<string>
    decreases |components|
  {
    if components == [] then done else Normalize(absolute, NormalizeStep(absolute, done, components[0]), components[1..])
  }

  /** `basename(normpath(path))` */
  function LastComponent(path: string): string {
    var absolute := path != "" && path[0] == '/';
    var components := Normalize(absolute, [], Split(path, '/'));
    if components != [] then components[|components| - 1] else if absolute then "" else "."
  }

  /** `dirname(path)`: up to the last slash, without the slashes there unless there is nothing else. */
  function DirName(path: string): string {
    var head := UpToLastSlash(path);
    var bare := StripSlashes(head);
    if bare == "" then head else bare
  }

  function UpToLastSlash(path: string): string {
    if path == "" || path[|path| - 1] == '/' then path else UpToLastSlash(path[..|path| - 1])
  }

  function StripSlashes(path: string): string {
    if path != "" && path[|path| - 1] == '/' then StripSlashes(path[..|path| - 1]) else path
  }

  /** A name found for an extension, if it is not blank. */
  function NameOf(r: Registry, ext: string): Option<string> {
    if ext in r.extToName && r.extToName[ext] != "" then Some(r.extToName[ext]) else None
  }

  /** One part of a file name: a format if it is known as one, else perhaps a compression. */
  function ReadPart(formats: Registry, compressions: Registry, c: TargetConfig, part: string): TargetConfig {
    if NameOf(formats, part).Some? then WithFormat(c, NameOf(formats, part).value)
    else if NameOf(compressions, part).Some? then WithCompression(c, NameOf(compressions, part).value)
    else c
  }

  function ReadParts(formats: Registry, compressions: Registry, c: TargetConfig, parts: seq<string>): TargetConfig
    decreases |parts|
  {
    if parts == [] then c else ReadParts(formats, compressions, ReadPart(formats, compressions, c, parts[0]), parts[1..])
  }

  /** The last two parts of the last component, in order: the later has the last word. */
  function ReadName(formats: Registry, compressions: Registry, c: TargetConfig, path: string): TargetConfig {
    var parts := Split(LastComponent(path), '.');
    ReadParts(formats, compressions, c, if |parts| > 2 then parts[|parts| - 2..] else parts)
  }

  const NO_FLAG := "[noflag]"

  predicate EndsWith(s: string, end: string) {
    |end| <= |s| && s[|s| - |end|..] == end
  }

  /** The path without the marker, and whether it had it. */
  function StripFlag(path: string): (string, bool) {
    if EndsWith(path, NO_FLAG) then (path[..|path| - |NO_FLAG|], true) else (path, false)
  }

  predicate TrailingSlash(path: string) {
    path != "" && (path[|path| - 1] == '/' || path[|path| - 1] == '\\')
  }

  /** A configuration that already has a format or compression keeps them. */
  function ExtractUnflagged(formats: Registry, compressions: Registry, path: string, c: TargetConfig): TargetConfig {
    var folder := TrailingSlash(path);
    var d := if folder then c.(folder := true) else c;
    if (d.format.Some? && d.format.value != "") || (d.compression.Some? && d.compression.value != "") then d
    else ReadName(formats, compressions, d, if folder then DirName(path) else path)
  }

  function ExtractFromPath(formats: Registry, compressions: Registry, path: string, c: TargetConfig): TargetConfig {
    var (rest, flagged) := StripFlag(path);
    ExtractUnflagged(formats, compressions, rest, if flagged then c.(flag := NoFlag) else c)
  }

  function Parse(formats: Registry, compressions: Registry, s: string): TargetConfig {
    ExtractFromPath(formats, compressions, if s != "" && s[0] == '.' then s else "." + s, FILE)
  }

  // ----- printing and reading -----

  /** What is printed for a name is a dot and its first extension, or its own name when it has none; for a blank one nothing. */
  lemma ExtensionExactly(r: Registry, name: string)
    ensures DefaultExtension(r, None) == "" && DefaultExtension(r, Some("")) == ""
    ensures name != "" ==>
              DefaultExtension(r, Some(name))
              == if name !in r.nameToExt || r.nameToExt[name] == [] then "." + name
                 else if r.nameToExt[name][0] == "" then "" else "." + r.nameToExt[name][0]
  {
  }

  /** The formats that are read and written as bytes, one by one. */
  lemma BinaryExactly(c: TargetConfig, format: string)
    ensures WithFormat(c, format).isBinary <==> format in {"h5", "feather", "npy", "xlsx", "parquet", "pickle", "tfmodel"}
    ensures WithFormat(c, format) == c.(format := Some(format), isBinary := WithFormat(c, format).isBinary)
  {
  }

  /** An extension that stands for a blank name stands for none. */
  lemma NameExactly(r: Registry, ext: string, name: string)
    ensures NameOf(r, ext) == Some(name) <==> ext in r.extToName && r.extToName[ext] == name && name != ""
  {
  }

  /** A configuration is read with or without its first dot. */
  lemma DotAdded(formats: Registry, compressions: Registry, s: string)
    requires s == "" || s[0] != '.'
    ensures Parse(formats, compressions, s) == Parse(formats, compressions, "." + s)
  {
  }

  // ----- what of a path is read -----

  /** An ordinary name of a file or folder. */
  predicate Ordinary(name: string) {
    '/' !in name && name !in {"", ".", ".."}
  }

  lemma {:induction false} NormalizeAppend(absolute: bool, done: seq<string>, a: seq<string>, b: seq<string>)
    ensures Normalize(absolute, done, a + b) == Normalize(absolute, Normalize(absolute, done, a), b)
    decreases |a|
  {
    if a == [] {
      assert a + b == b;
    } else {
      assert (a + b)[0] == a[0] && (a + b)[1..] == a[1..] + b;
      NormalizeAppend(absolute, NormalizeStep(absolute, done, a[0]), a[1..], b);
    }
  }

  lemma NormalizeOne(absolute: bool, done: seq<string>, component: string)
    ensures Normalize(absolute, done, [component]) == NormalizeStep(absolute, done, component)
  {
    assert [component][1..] == [];
    assert Normalize(absolute, NormalizeStep(absolute, done, component), []) == NormalizeStep(absolute, done, component);
  }

  predicate Absolute(path: string) {
    path != "" && path[0] == '/'
  }

  /** The components of a path one component longer. */
  lemma OneDeeper(dir: string, component: string)
    requires '/' !in component
    ensures var path, absolute := dir + "/" + component, Absolute(dir + "/" + component);
            Normalize(absolute, [], Split(path, '/'))
            == NormalizeStep(absolute, Normalize(absolute, [], Split(dir, '/')), component)
    ensures dir != "" ==> Absolute(dir + "/" + component) == Absolute(dir)
  {
    var absolute := Absolute(dir + "/" + component);
    assert dir + "/" + component == dir + ['/'] + component;
    SplitAppend(dir, '/', component);
    SplitNoSeparator(component, '/');
    NormalizeAppend(absolute, [], Split(dir, '/'), [component]);
    NormalizeOne(absolute, Normalize(absolute, [], Split(dir, '/')), component);
  }

  lemma NothingDeeper(dir: string, component: string)
    requires dir != "" && component in {"", "."}
    ensures LastComponent(dir + "/" + component) == LastComponent(dir)
  {
    OneDeeper(dir, component);
  }

  lemma TakenBack(dir: string, name: string)
    requires dir != "" && Ordinary(name)
    ensures LastComponent(dir + "/" + name + "/" + "..") == LastComponent(dir)
  {
    OneDeeper(dir, name);
    OneDeeper(dir + "/" + name, "..");
  }

  /** The last component of a path is its last name; a trailing slash or dot does not count, and two dots take back a name. */
  lemma LastComponentExactly(dir: string, name: string)
    requires Ordinary(name)
    ensures LastComponent(name) == name && LastComponent(dir + "/" + name) == name
    ensures dir != "" ==> LastComponent(dir + "/" + "") == LastComponent(dir + "/" + ".") == LastComponent(dir)
    ensures dir != "" ==> LastComponent(dir + "/" + name + "/" + "..") == LastComponent(dir)
  {
    NoSlash(name);
    OneDeeper(dir, name);
    if dir != "" {
      NothingDeeper(dir, "");
      NothingDeeper(dir, ".");
      TakenBack(dir, name);
    }
  }

  lemma NothingDeep()
    ensures LastComponent("") == "." && LastComponent("/") == ""
  {
    NormalizeOne(false, [], "");
    assert Split("", '/') == [""];
    assert "/"[1..] == "" && Split("/", '/') == ["", ""];
    assert ["", ""] == [""] + [""];
    NormalizeAppend(true, [], [""], [""]);
    NormalizeOne(true, [], "");
  }

  /** Two dots at the top of a relative path stay, at the root they are nothing. */
  lemma LastComponentAtTop(dir: string)
    requires dir != ""
    ensures LastComponent("") == "." && LastComponent("/") == ""
    ensures LastComponent(dir) in {".", ".."} && !Absolute(dir) ==> LastComponent(dir + "/" + "..") == ".."
    ensures LastComponent(dir) == "" ==> LastComponent(dir + "/" + "..") == ""
  {
    OneDeeper(dir, "..");
    NothingDeep();
    OrdinaryComponents(Absolute(dir), [], Split(dir, '/'));
    var components := Normalize(Absolute(dir), [], Split(dir, '/'));
    if components != [] {
      assert components[|components| - 1] in components;
    }
  }

  lemma {:induction false} OrdinaryComponents(absolute: bool, done: seq<string>, components: seq<string>)
    requires forall d | d in done :: d != "" && d != "." && (absolute ==> d != "..")
    ensures forall d | d in Normalize(absolute, done, components) :: d != "" && d != "." && (absolute ==> d != "..")
    decreases |components|
  {
    if components != [] {
      var next := NormalizeStep(absolute, done, components[0]);
      if done != [] {
        assert done[|done| - 1] in done;
      }
      forall d | d in next ensures d in done || (d == components[0] && next == done + [d]) {
      }
      OrdinaryComponents(absolute, next, components[1..]);
    }
  }

  lemma {:induction false} UpToTheSlash(head: string, name: string)
    requires '/' !in name && (head == "" || head[|head| - 1] == '/')
    ensures UpToLastSlash(head + name) == head
  {
    if name == "" {
      assert head + name == head;
    } else {
      var path := head + name;
      assert path[..|path| - 1] == head + name[..|name| - 1];
      UpToTheSlash(head, name[..|name| - 1]);
    }
  }

  /** The directory of a path is what is before the slash of its last component, or the root, or nothing. */
  lemma DirNameExactly(dir: string, name: string)
    requires '/' !in name && dir != "" && dir[|dir| - 1] != '/'
    ensures DirName(dir + "/" + name) == dir && DirName("/" + name) == "/" && DirName(name) == ""
  {
    UpToTheSlash(dir + "/", name);
    UpToTheSlash("/", name);
    UpToTheSlash("", name);
    StripOneSlash(dir);
    assert UpToLastSlash(dir + "/") == dir + "/";
    assert "" + name == name && "/"[..0] == "";
    assert StripSlashes("/") == StripSlashes("") == "";
  }

  /** Of a file name the last two parts are read, in order. */
  lemma ReadLastTwo(formats: Registry, compressions: Registry, c: TargetConfig, stem: string, a: string, b: string)
    requires '/' !in stem && Ordinary(a) && Ordinary(b) && '.' !in a && '.' !in b
    ensures ReadName(formats, compressions, c, stem + "." + a + "." + b)
            == ReadPart(formats, compressions, ReadPart(formats, compressions, c, a), b)
  {
    var name := stem + "." + a + "." + b;
    assert name == stem + ['.'] + (a + ['.'] + b);
    SplitAppend(stem, '.', a + ['.'] + b);
    SplitAppend(a, '.', b);
    SplitNoSeparator(a, '.');
    SplitNoSeparator(b, '.');
    assert name[|name| - 1] == b[|b| - 1] && b[|b| - 1] in b;
    NoSlash(name);
    var parts := Split(name, '.');
    assert parts == Split(stem, '.') + [a, b];
    assert parts[|parts| - 2..] == [a, b];
    ReadPairFrom(formats, compressions, c, a, b);
  }

  lemma ReadPairFrom(formats: Registry, compressions: Registry, c: TargetConfig, a: string, b: string)
    ensures ReadParts(formats, compressions, c, [a, b])
            == ReadPart(formats, compressions, ReadPart(formats, compressions, c, a), b)
  {
    var d := ReadPart(formats, compressions, c, a);
    assert [a, b][1..] == [b] && [b][1..] == [];
    assert ReadParts(formats, compressions, d, [b]) == ReadParts(formats, compressions, ReadPart(formats, compressions, d, b), []);
  }

  lemma {:induction false} ReadingParts(formats: Registry, compressions: Registry, c: TargetConfig, parts: seq<string>)
    ensures ReadParts(formats, compressions, c, parts).flag == c.flag
    ensures ReadParts(formats, compressions, c, parts).folder == c.folder
    decreases |parts|
  {
    if parts != [] {
      ReadingParts(formats, compressions, ReadPart(formats, compressions, c, parts[0]), parts[1..]);
    }
  }

  /** The marker decides the flag and nothing else; a slash at the end of what is before it makes a folder; and a
      configuration that had a format or a compression keeps both. */
  lemma ExtractExactly(formats: Registry, compressions: Registry, path: string, c: TargetConfig)
    ensures var d := ExtractFromPath(formats, compressions, path, c);
            && d.flag == (if EndsWith(path, "[noflag]") then NoFlag else c.flag)
            && (var rest := if EndsWith(path, "[noflag]") then path[..|path| - 8] else path;
                var slash := rest != "" && (rest[|rest| - 1] == '/' || rest[|rest| - 1] == '\\');
                && d.folder == (c.folder || slash)
                && (c.format in {None, Some("")} && c.compression in {None, Some("")} ==>
                      d == ReadName(formats, compressions, c.(flag := d.flag, folder := d.folder), if slash then DirName(rest) else rest)))
            && ((c.format.Some? && c.format.value != "") || (c.compression.Some? && c.compression.value != "") ==>
                  d.format == c.format && d.compression == c.compression && d.isBinary == c.isBinary)
  {
    var (rest, flagged) := StripFlag(path);
    var e := if flagged then c.(flag := NoFlag) else c;
    var f := if TrailingSlash(rest) then e.(folder := true) else e;
    var parts := Split(LastComponent(if TrailingSlash(rest) then DirName(rest) else rest), '.');
    ReadingParts(formats, compressions, f, if |parts| > 2 then parts[|parts| - 2..] else parts);
  }

  /** The directory a file is in does not matter. */
  lemma DirectoryIgnored(formats: Registry, compressions: Registry, dir: string, name: string, c: TargetConfig)
    requires Ordinary(name) && !TrailingSlash(name) && !EndsWith(name, NO_FLAG)
    ensures ExtractFromPath(formats, compressions, dir + "/" + name, c) == ExtractFromPath(formats, compressions, name, c)
  {
    var path := dir + "/" + name;
    assert path[|path| - 1] == name[|name| - 1];
    NotFlagged(dir, name);
    LastComponentExactly(dir, name);
  }

  lemma NotFlagged(dir: string, name: string)
    requires !EndsWith(name, NO_FLAG)
    ensures !EndsWith(dir + "/" + name, NO_FLAG)
  {
    var path := dir + "/" + name;
    if |NO_FLAG| <= |path| {
      var i := |path| - |NO_FLAG|;
      if |name| < |NO_FLAG| {
        assert path[i..][|dir| - i] == '/' != NO_FLAG[|dir| - i];
      } else {
        assert path[i..] == name[|name| - |NO_FLAG|..];
      }
    }
  }

  /** A token that cannot be mistaken for part of a path. */
  predicate Plain(s: string) {
    s != "" && '.' !in s && '/' !in s && '\\' !in s && !EndsWith(s, NO_FLAG)
  }

  /** The extension that is printed for a name. */
  function Token(r: Registry, name: string): string {
    if name in r.nameToExt && r.nameToExt[name] != [] then r.nameToExt[name][0] else name
  }

  /** The configuration the `with_` methods build for a format and a compression. */
  function Built(format: Option<string>, compression: Option<string>): TargetConfig {
    var c := if format.Some? then WithFormat(FILE, format.value) else FILE;
    if compression.Some? then WithCompression(c, compression.value) else c
  }

  ghost predicate PlainNames(formats: Registry, compressions: Registry, format: Option<string>, compression: Option<string>) {
    && (format.Some? ==> format.value != "" && Plain(Token(formats, format.value)))
    && (compression.Some? ==> compression.value != "" && Plain(Token(formats, compression.value)))
    && "" !in formats.extToName && "" !in compressions.extToName
  }

  /** The marker has no dot, so it can only be at the end of the last token. */
  lemma EndsWithLast(s: string, t: string)
    ensures EndsWith(s + "." + t, NO_FLAG) ==> EndsWith(t, NO_FLAG)
  {
    var u := s + "." + t;
    if |NO_FLAG| <= |u| {
      var i := |u| - |NO_FLAG|;
      if |t| < |NO_FLAG| {
        assert u[i..][|s| - i] == '.' != NO_FLAG[|s| - i];
      } else {
        assert u[i..] == t[|t| - |NO_FLAG|..];
      }
    }
  }

  lemma NoSlash(s: string)
    requires '/' !in s && s != "." && s != "" && s != ".."
    ensures LastComponent(s) == s
  {
    SplitNoSeparator(s, '/');
    assert Normalize(false, [], [s]) == Normalize(false, [s], []);
  }

  lemma PlainEnd(s: string, t: string)
    requires Plain(t)
    ensures !TrailingSlash(s + "." + t) && !EndsWith(s + "." + t, NO_FLAG)
    ensures s + "." + t !in {"", ".", ".."}
  {
    var p := s + "." + t;
    assert p[|p| - 1] == t[|t| - 1] && t[|t| - 1] in t;
    EndsWithLast(s, t);
  }

  /** Reading what ends in a plain token, after a dot, is reading its last two parts. */
  lemma ReadPlain(formats: Registry, compressions: Registry, s: string, t: string)
    requires Plain(t) && '/' !in s
    ensures ExtractFromPath(formats, compressions, s + "." + t, FILE)
            == var parts := Split(s + "." + t, '.');
               ReadParts(formats, compressions, FILE, if |parts| > 2 then parts[|parts| - 2..] else parts)
  {
    PlainEnd(s, t);
    assert '/' !in s + "." + t;
    NoSlash(s + "." + t);
  }

  lemma ReadPair(formats: Registry, compressions: Registry, a: string, b: string)
    ensures ReadParts(formats, compressions, FILE, [a, b])
            == ReadPart(formats, compressions, ReadPart(formats, compressions, FILE, a), b)
  {
    var c := ReadPart(formats, compressions, FILE, a);
    assert [a, b][1..] == [b] && [b][1..] == [];
    assert ReadParts(formats, compressions, c, [b]) == ReadParts(formats, compressions, ReadPart(formats, compressions, c, b), []);
  }

  lemma ReadOne(formats: Registry, compressions: Registry, t: string)
    requires Plain(t) && "" !in formats.extToName && "" !in compressions.extToName
    ensures Parse(formats, compressions, "." + t) == ReadPart(formats, compressions, FILE, t)
  {
    assert "" + "." + t == "." + t == [] + ['.'] + t;
    ReadPlain(formats, compressions, "", t);
    SplitFirst("", '.', t);
    SplitNoSeparator(t, '.');
    assert Split("." + t, '.') == ["", t];
    ReadPair(formats, compressions, "", t);
  }

  lemma SplitTwo(a: string, b: string)
    requires '.' !in a && '.' !in b
    ensures Split("." + a + "." + b, '.') == ["", a, b]
  {
    assert "." + a + "." + b == [] + ['.'] + (a + ['.'] + b);
    SplitFirst("", '.', a + ['.'] + b);
    SplitFirst(a, '.', b);
    SplitNoSeparator(b, '.');
  }

  lemma ReadTwo(formats: Registry, compressions: Registry, a: string, b: string)
    requires Plain(a) && Plain(b)
    ensures Parse(formats, compressions, "." + a + "." + b)
            == ReadPart(formats, compressions, ReadPart(formats, compressions, FILE, a), b)
  {
    ReadPlain(formats, compressions, "." + a, b);
    SplitTwo(a, b);
    assert ["", a, b][1..] == [a, b];
    ReadPair(formats, compressions, a, b);
  }

  lemma ReadNothing(formats: Registry, compressions: Registry)
    requires "" !in formats.extToName && "" !in compressions.extToName
    ensures Parse(formats, compressions, "") == FILE
  {
    assert "." + "" == ".";
    SplitNoSeparator(".", '/');
    assert Normalize(false, [], ["."]) == Normalize(false, [], []);
    assert Split(".", '.') == ["", ""];
    ReadPair(formats, compressions, "", "");
  }

  /** What a caller can check: the format's printed extension is read as that format, and the compression's is no format's
      extension and is read as that compression. */
  predicate Recoverable(formats: Registry, compressions: Registry, format: Option<string>, compression: Option<string>) {
    && (format.Some? ==> NameOf(formats, Token(formats, format.value)) == format)
    && (compression.Some? ==> NameOf(formats, Token(formats, compression.value)) == None
                              && NameOf(compressions, Token(formats, compression.value)) == compression)
  }

  /** A file configuration is read back from the extension it prints exactly when it is recoverable. */
  lemma PrintAndReadFile(formats: Registry, compressions: Registry, format: Option<string>, compression: Option<string>)
    requires Consistent(formats) && PlainNames(formats, compressions, format, compression)
    ensures var c := Built(format, compression);
            Parse(formats, compressions, GetExt(formats, c)) == c <==> Recoverable(formats, compressions, format, compression)
  {
    var c := Built(format, compression);
    match (format, compression) {
      case (None, None) =>
        ReadNothing(formats, compressions);
      case (Some(f), None) =>
        assert GetExt(formats, c) == "." + Token(formats, f);
        ReadOne(formats, compressions, Token(formats, f));
      case (None, Some(z)) =>
        assert GetExt(formats, c) == "." + Token(formats, z);
        ReadOne(formats, compressions, Token(formats, z));
      case (Some(f), Some(z)) =>
        assert GetExt(formats, c) == "." + Token(formats, f) + "." + Token(formats, z);
        ReadTwo(formats, compressions, Token(formats, f), Token(formats, z));
        NoSwap(formats, compressions, f, z);
    }
  }

  lemma {:induction false} ReadPartsInFolder(formats: Registry, compressions: Registry, c: TargetConfig, parts: seq<string>)
    ensures ReadParts(formats, compressions, c.(folder := true), parts)
            == ReadParts(formats, compressions, c, parts).(folder := true)
    ensures ReadParts(formats, compressions, c, parts).folder == c.folder
    decreases |parts|
  {
    if parts != [] {
      ReadPartsInFolder(formats, compressions, ReadPart(formats, compressions, c, parts[0]), parts[1..]);
    }
  }

  lemma StripOneSlash(p: string)
    requires p != "" && p[|p| - 1] != '/'
    ensures DirName(p + "/") == p
  {
    var s := p + "/";
    assert s[..|s| - 1] == p;
    assert UpToLastSlash(s) == s && StripSlashes(s) == StripSlashes(p) == p;
  }

  lemma SlashIsNoFlag(p: string)
    ensures !EndsWith(p + "/", NO_FLAG)
  {
    var s := p + "/";
    if |NO_FLAG| <= |s| {
      assert s[|s| - |NO_FLAG|..][|NO_FLAG| - 1] == '/' != NO_FLAG[|NO_FLAG| - 1];
    }
  }

  lemma ReadNameInFolder(formats: Registry, compressions: Registry, p: string)
    ensures ReadName(formats, compressions, FILE.(folder := true), p) == ReadName(formats, compressions, FILE, p).(folder := true)
    ensures !ReadName(formats, compressions, FILE, p).folder
  {
    var parts := Split(LastComponent(p), '.');
    ReadPartsInFolder(formats, compressions, FILE, if |parts| > 2 then parts[|parts| - 2..] else parts);
  }

  lemma ReadSlashed(formats: Registry, compressions: Registry, p: string)
    requires p != "" && p[|p| - 1] != '/'
    ensures ExtractUnflagged(formats, compressions, p + "/", FILE) == ReadName(formats, compressions, FILE.(folder := true), p)
  {
    StripOneSlash(p);
    assert TrailingSlash(p + "/");
  }

  /** A trailing slash makes it a folder and changes nothing else. */
  lemma ReadFolder(formats: Registry, compressions: Registry, p: string)
    requires p != "" && !TrailingSlash(p) && !EndsWith(p, NO_FLAG)
    ensures ExtractFromPath(formats, compressions, p + "/", FILE)
            == ExtractFromPath(formats, compressions, p, FILE).(folder := true)
    ensures !ExtractFromPath(formats, compressions, p, FILE).folder
  {
    SlashIsNoFlag(p);
    ReadSlashed(formats, compressions, p);
    ReadNameInFolder(formats, compressions, p);
  }

  lemma PrintedEnd(formats: Registry, compressions: Registry, format: Option<string>, compression: Option<string>)
    requires PlainNames(formats, compressions, format, compression)
    ensures var p := GetExt(formats, Built(format, compression));
            if p == "" then format.None? && compression.None?
            else p[0] == '.' && !TrailingSlash(p) && !EndsWith(p, NO_FLAG)
  {
    var p := GetExt(formats, Built(format, compression));
    if compression.Some? {
      PlainEnd(DefaultExtension(formats, format), Token(formats, compression.value));
      assert p == DefaultExtension(formats, format) + "." + Token(formats, compression.value);
    } else if format.Some? {
      PlainEnd("", Token(formats, format.value));
      assert p == "" + "." + Token(formats, format.value);
    }
  }

  lemma ParseSlashed(formats: Registry, compressions: Registry, p: string)
    requires p == "" || (p[0] == '.' && !TrailingSlash(p) && !EndsWith(p, NO_FLAG))
    ensures Parse(formats, compressions, p + "/") == Parse(formats, compressions, p).(folder := true)
    ensures !Parse(formats, compressions, p).folder
  {
    if p == "" {
      assert p + "/" == "/" && "." + "/" == "./" && "." + "" == ".";
      ReadFolder(formats, compressions, ".");
    } else {
      ReadFolder(formats, compressions, p);
    }
  }

  /** A configuration, file or folder, is read back from what it prints exactly when it is recoverable. */
  lemma PrintAndRead(formats: Registry, compressions: Registry, format: Option<string>, compression: Option<string>, folder: bool)
    requires Consistent(formats) && PlainNames(formats, compressions, format, compression)
    ensures var c := Built(format, compression).(folder := folder);
            Parse(formats, compressions, Repr(formats, c)) == c <==> Recoverable(formats, compressions, format, compression)
  {
    var c := Built(format, compression);
    var p := GetExt(formats, c);
    assert GetExt(formats, c.(folder := folder)) == p && p + "" == p;
    PrintAndReadFile(formats, compressions, format, compression);
    PrintedEnd(formats, compressions, format, compression);
    ParseSlashed(formats, compressions, p);
    assert c.(folder := folder) == (if folder then c.(folder := true) else c);
  }

  /** The two extensions cannot be taken for one another. */
  lemma NoSwap(formats: Registry, compressions: Registry, f: string, z: string)
    requires Consistent(formats) && f != ""
    ensures !(NameOf(formats, Token(formats, f)) == None && NameOf(formats, Token(formats, z)) == Some(f))
  {
    if f in formats.nameToExt {
      assert Token(formats, f) in formats.nameToExt[f];
    }
  }

  /** A compression is recoverable exactly when its NAME is one of its own extensions and no format's. */
  lemma CompressionByName(formats: Registry, compressions: Registry, z: string)
    requires Consistent(formats) && z != ""
    ensures Recoverable(formats, compressions, None, Some(z)) <==>
            z !in formats.extToName && z !in formats.nameToExt && NameOf(compressions, z) == Some(z)
  {
    if z in formats.nameToExt {
      assert Token(formats, z) in formats.nameToExt[z];
    }
  }

  // ----- the registries as shipped -----

  function RegisterAll(r: Registry, entries: seq<(string, seq<string>)>): Registry
    decreases |entries|
  {
    if entries == [] then r else RegisterAll(Register(r, entries[0].0, entries[0].1), entries[1..])
  }

  const SHIPPED_COMPRESSIONS: seq<(string, seq<string>)> :=
    [("gz", ["gz"]), ("bz2", ["bz2"]), ("zip", []), ("xz", []), ("snappy", [])]

  const SHIPPED_FORMATS: seq<(string, seq<string>)> :=
    [("csv", []), ("txt", ["txt", "py", "log"]), ("table", []), ("parquet", []), ("feather", []), ("xlsx", []), ("pickle", []),
     ("html", []), ("png", []), ("pdf", []), ("jpeg", ["jpg", "jpeg"]), ("h5", ["h5", "hdf5"]), ("json", ["json", "hjson"]),
     ("yaml", ["yaml", "yml"]), ("npy", ["npy", "numpy"]), ("tsv", []), ("tfmodel", []), ("tfhistory", []), ("zip", [])]

  /** No later entry claims an extension of this one. */
  ghost predicate Unclaimed(entries: seq<(string, seq<string>)>) {
    forall i, j, e | 0 <= i < j < |entries| :: !(e in Given(entries[i].0, entries[i].1) && e in Given(entries[j].0, entries[j].1))
  }

  ghost predicate NamesDiffer(entries: seq<(string, seq<string>)>) {
    forall i, j | 0 <= i < j < |entries| :: entries[i].0 != entries[j].0
  }

  ghost predicate Named(entries: seq<(string, seq<string>)>) {
    forall i | 0 <= i < |entries| :: entries[i].0 != ""
  }

  lemma {:induction false} RegisterAllConsistent(r: Registry, entries: seq<(string, seq<string>)>)
    requires Consistent(r) && Named(entries)
    ensures Consistent(RegisterAll(r, entries))
    decreases |entries|
  {
    if entries != [] {
      RegisterKeepsConsistent(r, entries[0].0, entries[0].1);
      RegisterAllConsistent(Register(r, entries[0].0, entries[0].1), entries[1..]);
    }
  }

  /** An extension that no later entry claims keeps its name, and a name that is not registered again keeps its extensions. */
  lemma {:induction false} RegisterAllKeeps(r: Registry, entries: seq<(string, seq<string>)>, name: string, e: string)
    ensures (forall i | 0 <= i < |entries| :: e !in Given(entries[i].0, entries[i].1)) ==>
              NameOf(RegisterAll(r, entries), e) == NameOf(r, e)
    ensures (forall i | 0 <= i < |entries| :: entries[i].0 != name) ==>
              Token(RegisterAll(r, entries), name) == Token(r, name)
    decreases |entries|
  {
    if entries != [] {
      var (n, exts) := entries[0];
      ClaimIs(r.extToName, Given(n, exts), n);
      RegisterAllKeeps(Register(r, n, exts), entries[1..], name, e);
    }
  }

  /** When no extension is claimed twice and no name registered twice, every registered name is read from its extensions. */
  lemma {:induction false} ClaimedOnce(r: Registry, entries: seq<(string, seq<string>)>, i: nat, e: string)
    requires Unclaimed(entries) && NamesDiffer(entries) && Named(entries)
    requires i < |entries| && e in Given(entries[i].0, entries[i].1)
    ensures NameOf(RegisterAll(r, entries), e) == Some(entries[i].0)
    ensures Token(RegisterAll(r, entries), entries[i].0) == Given(entries[i].0, entries[i].1)[0]
    decreases |entries|
  {
    var (n, exts) := entries[0];
    var next := Register(r, n, exts);
    if i == 0 {
      ClaimIs(r.extToName, Given(n, exts), n);
      RegisterAllKeeps(next, entries[1..], n, e);
    } else {
      ClaimedOnce(next, entries[1..], i - 1, e);
    }
  }

  lemma {:induction false} WhatIsClaimed(r: Registry, entries: seq<(string, seq<string>)>, x: string)
    ensures x in RegisterAll(r, entries).extToName <==>
            x in r.extToName || exists i | 0 <= i < |entries| :: x in Given(entries[i].0, entries[i].1)
    ensures x in RegisterAll(r, entries).nameToExt <==>
            x in r.nameToExt || exists i | 0 <= i < |entries| :: entries[i].0 == x
    decreases |entries|
  {
    if entries != [] {
      var (n, exts) := entries[0];
      var rest := entries[1..];
      ClaimIs(r.extToName, Given(n, exts), n);
      WhatIsClaimed(Register(r, n, exts), rest, x);
      assert forall i | 0 <= i < |rest| :: rest[i] == entries[i + 1];
      assert forall i | 0 < i < |entries| :: entries[i] == rest[i - 1];
    }
  }

  lemma FormatIsRead(fs: seq<(string, seq<string>)>, i: nat)
    requires Unclaimed(fs) && NamesDiffer(fs) && Named(fs) && i < |fs|
    ensures var formats := RegisterAll(EMPTY, fs); NameOf(formats, Token(formats, fs[i].0)) == Some(fs[i].0)
  {
    ClaimedOnce(EMPTY, fs, i, Given(fs[i].0, fs[i].1)[0]);
  }

  lemma NameIsRead(zs: seq<(string, seq<string>)>, k: nat)
    requires Unclaimed(zs) && NamesDiffer(zs) && Named(zs) && k < |zs|
    ensures NameOf(RegisterAll(EMPTY, zs), zs[k].0) == Some(zs[k].0) <==> zs[k].0 in Given(zs[k].0, zs[k].1)
  {
    var z := zs[k].0;
    WhatIsClaimed(EMPTY, zs, z);
    if j :| 0 <= j < |zs| && z in Given(zs[j].0, zs[j].1) {
      ClaimedOnce(EMPTY, zs, j, z);
    }
  }

  /** Neither an extension nor the name of a format. */
  ghost predicate NotAFormat(fs: seq<(string, seq<string>)>, z: string) {
    forall j | 0 <= j < |fs| :: fs[j].0 != z && z !in Given(fs[j].0, fs[j].1)
  }

  lemma NotAFormatExactly(fs: seq<(string, seq<string>)>, z: string)
    ensures NotAFormat(fs, z) <==> z !in RegisterAll(EMPTY, fs).extToName && z !in RegisterAll(EMPTY, fs).nameToExt
  {
    WhatIsClaimed(EMPTY, fs, z);
  }

  /** For registries in which nothing is claimed twice: a registered format and compression are recoverable exactly when the
      compression's name is one of its own extensions and is neither an extension nor the name of a format. */
  lemma RegisteredRecoverable(fs: seq<(string, seq<string>)>, zs: seq<(string, seq<string>)>, i: nat, k: nat)
    requires Unclaimed(fs) && NamesDiffer(fs) && Named(fs) && Unclaimed(zs) && NamesDiffer(zs) && Named(zs)
    requires i < |fs| && k < |zs|
    ensures Recoverable(RegisterAll(EMPTY, fs), RegisterAll(EMPTY, zs), Some(fs[i].0), Some(zs[k].0)) <==>
            zs[k].0 in Given(zs[k].0, zs[k].1) && NotAFormat(fs, zs[k].0)
  {
    RegisterAllConsistent(EMPTY, fs);
    FormatIsRead(fs, i);
    CompressionByName(RegisterAll(EMPTY, fs), RegisterAll(EMPTY, zs), zs[k].0);
    NotAFormatExactly(fs, zs[k].0);
    NameIsRead(zs, k);
  }

  /** A compression with the name of a registered format is never read back. */
  lemma NameOfAFormat(fs: seq<(string, seq<string>)>, compressions: Registry, j: nat, format: Option<string>)
    requires Named(fs) && j < |fs|
    ensures !Recoverable(RegisterAll(EMPTY, fs), compressions, format, Some(fs[j].0))
  {
    RegisterAllConsistent(EMPTY, fs);
    WhatIsClaimed(EMPTY, fs, fs[j].0);
    CompressionByName(RegisterAll(EMPTY, fs), compressions, fs[j].0);
  }

  /** As shipped, that is the case of `zip`. */
  lemma ZipIsAFormat(fs: seq<(string, seq<string>)>, compressions: Registry, format: Option<string>)
    requires fs == SHIPPED_FORMATS
    ensures !Recoverable(RegisterAll(EMPTY, fs), compressions, format, Some("zip"))
  {
    assert fs[18].0 == "zip";
    NameOfAFormat(fs, compressions, 18, format);
  }

  /** The shipped format an extension belongs to, by position. */
  function FormatOf(e: string): int {
    if e == "csv" then 0
    else if e == "txt" || e == "py" || e == "log" then 1
    else if e == "table" then 2
    else if e == "parquet" then 3
    else if e == "feather" then 4
    else if e == "xlsx" then 5
    else if e == "pickle" then 6
    else if e == "html" then 7
    else if e == "png" then 8
    else if e == "pdf" then 9
    else if e == "jpg" || e == "jpeg" then 10
    else if e == "h5" || e == "hdf5" then 11
    else if e == "json" || e == "hjson" then 12
    else if e == "yaml" || e == "yml" then 13
    else if e == "npy" || e == "numpy" then 14
    else if e == "tsv" then 15
    else if e == "tfmodel" then 16
    else if e == "tfhistory" then 17
    else if e == "zip" then 18
    else -1
  }

  function CompressionOf(e: string): int {
    if e == "gz" then 0 else if e == "bz2" then 1 else if e == "zip" then 2 else if e == "xz" then 3
    else if e == "snappy" then 4 else -1
  }

  /** Every extension, the name among them, belongs to the entry at its position only. */
  ghost predicate Owned(entries: seq<(string, seq<string>)>, owner: string -> int) {
    forall i | 0 <= i < |entries| :: OwnedAt(entries[i], i, owner)
  }

  ghost predicate OwnedAt(entry: (string, seq<string>), i: int, owner: string -> int) {
    && entry.0 != "" && entry.0 in Given(entry.0, entry.1)
    && forall e | e in Given(entry.0, entry.1) :: owner(e) == i
  }

  lemma OwnedOnce(entries: seq<(string, seq<string>)>, owner: string -> int)
    requires Owned(entries, owner)
    ensures Unclaimed(entries) && NamesDiffer(entries) && Named(entries)
  {
  }

  lemma FirstFormatsOwned(i: nat)
    requires i < 10
    ensures OwnedAt(SHIPPED_FORMATS[i], i, FormatOf)
  {
  }

  lemma MiddleFormatsOwned(i: nat)
    requires 10 <= i < 14
    ensures OwnedAt(SHIPPED_FORMATS[i], i, FormatOf)
  {
  }

  lemma LastFormatsOwned(i: nat)
    requires 14 <= i < 19
    ensures OwnedAt(SHIPPED_FORMATS[i], i, FormatOf)
  {
  }

  lemma ShippedFormatsOwned(fs: seq<(string, seq<string>)>)
    requires fs == SHIPPED_FORMATS
    ensures Owned(fs, FormatOf)
  {
    assert |fs| == 19;
    forall i: nat | i < 19 ensures OwnedAt(fs[i], i, FormatOf) {
      if i < 10 {
        FirstFormatsOwned(i);
      } else if i < 14 {
        MiddleFormatsOwned(i);
      } else {
        LastFormatsOwned(i);
      }
    }
  }

  lemma ShippedCompressionsOwned()
    ensures Owned(SHIPPED_COMPRESSIONS, CompressionOf)
  {
  }

  /** As shipped, every format with every compression but `zip` is read back from what it prints. */
  lemma ShippedRecoverable(fs: seq<(string, seq<string>)>, zs: seq<(string, seq<string>)>, i: nat, k: nat)
    requires fs == SHIPPED_FORMATS && zs == SHIPPED_COMPRESSIONS && i < |fs| && k < |zs|
    ensures Recoverable(RegisterAll(EMPTY, fs), RegisterAll(EMPTY, zs), Some(fs[i].0), Some(zs[k].0)) <==> zs[k].0 != "zip"
  {
    ShippedFormatsOwned(fs);
    ShippedCompressionsOwned();
    OwnedOnce(fs, FormatOf);
    OwnedOnce(zs, CompressionOf);
    RegisteredRecoverable(fs, zs, i, k);
    ShippedNames(fs, zs[k].0, k);
  }

  lemma ShippedNames(fs: seq<(string, seq<string>)>, z: string, k: nat)
    requires fs == SHIPPED_FORMATS && Owned(fs, FormatOf) && k < |SHIPPED_COMPRESSIONS| && z == SHIPPED_COMPRESSIONS[k].0
    ensures NotAFormat(fs, z) <==> z != "zip"
  {
    if z == "zip" {
      assert fs[18].0 == z;
    } else {
      assert FormatOf(z) == -1;
    }
  }
}
