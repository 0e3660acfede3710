/** Partitions of a directory target: their names, and the order in which they are listed. */
module Partitions {
  import opened Common
  import opened Sequences
  import opened Strings
  import opened Decimals

  const DEFAULT_FLAG := "_SUCCESS"

  /** A folder path ends with a slash. `flag` is the flag file's name, if there is one. */
  datatype Folder = Folder(path: string, extension: string, flag: Option<string>, metaFiles: set<string>)

  function PartitionPath(f: Folder, n: nat): string {
    f.path + ("part-" + (Padded(n) + f.extension))
  }

  class DirTarget {
    const folder: Folder
    var autoPartitionCount: nat

    constructor (folder: Folder)
      ensures this.folder == folder && autoPartitionCount == 0
    {
      this.folder, autoPartitionCount := folder, 0;
    }

    /** The path of a named partition, or of the next automatic one, with the extension the caller or the caller's
        configuration gives, or the folder's own. */
    method Partition(name: Option<string>, extension: Option<string>) returns (path: string)
      modifies this`autoPartitionCount
      ensures var ext := if extension.Some? then extension.value else folder.extension;
              && (name.None? ==> path == PartitionPath(folder.(extension := ext), old(autoPartitionCount)))
              && (name.Some? ==> path == folder.path + (name.value + ext))
      ensures autoPartitionCount == old(autoPartitionCount) + if name.None? then 1 else 0
    {
      var ext := if extension.Some? then extension.value else folder.extension;
      var base;
      match name {
        case Some(given) =>
          base := given;
        case None =>
          base := "part-" + Padded(autoPartitionCount);
          assert base + ext == "part-" + (Padded(autoPartitionCount) + ext);
          autoPartitionCount := autoPartitionCount + 1;
      }
      path := folder.path + (base + ext);
    }
  }

  // ----- names -----

  /** No automatic partition name is ever used twice. */
  lemma PathsDiffer(f: Folder, a: nat, b: nat)
    requires PartitionPath(f, a) == PartitionPath(f, b)
    ensures a == b
  {
    var x, y := PartitionPath(f, a), PartitionPath(f, b);
    var k := |f.path| + 5;
    assert x[k..] == Padded(a) + f.extension && y[k..] == Padded(b) + f.extension;
    assert |Padded(a)| == |Padded(b)|;
    assert x[k..][..|Padded(a)|] == Padded(a) && y[k..][..|Padded(b)|] == Padded(b);
    ValuePadded(a);
    ValuePadded(b);
  }

  function BaseName(path: string): string {
    if '/' !in path then path else BaseName(path[IndexOf(path, '/') + 1..])
  }

  lemma {:induction false} BaseNameOf(folder: string, name: string)
    requires folder == "" || folder[|folder| - 1] == '/'
    requires '/' !in name
    ensures BaseName(folder + name) == name
    decreases |folder|
  {
    var path := folder + name;
    if folder == "" {
      assert path == name;
    } else {
      assert path[|folder| - 1] == '/';
      IndexOfAtMost(path, '/', |folder| - 1);
      var i := IndexOf(path, '/');
      assert path[i + 1..] == folder[i + 1..] + name;
      BaseNameOf(folder[i + 1..], name);
    }
  }

  predicate IsMetaFile(f: Folder, path: string) {
    var base := BaseName(path);
    (base != "" && (base[0] == '.' || base[0] == '_')) || base in f.metaFiles
  }

  // ----- listing -----

  predicate Shown(f: Folder, path: string) {
    !IsMetaFile(f, path)
  }

  predicate NotTheFlag(f: Folder, path: string) {
    f.flag.None? || path != f.path + f.flag.value
  }

  /** All files, sorted, without meta files and without the flag. */
  function ListPartitions(f: Folder, all: seq<string>): seq<string> {
    Filter(p => NotTheFlag(f, p), Filter(p => Shown(f, p), Sort(LexLe, all)))
  }

  /** A file of the folder is listed as often as it is there, unless its name starts with a dot or an underscore, is one of
      the meta files, or is the flag. */
  lemma ListedWhich(f: Folder, all: seq<string>, name: string)
    requires (f.path == "" || f.path[|f.path| - 1] == '/') && '/' !in name
    ensures multiset(ListPartitions(f, all))[f.path + name]
            == if (name != "" && name[0] in {'.', '_'}) || name in f.metaFiles || f.flag == Some(name) then 0
               else multiset(all)[f.path + name]
  {
    var path := f.path + name;
    var sorted := Sort(LexLe, all);
    BaseNameOf(f.path, name);
    FilterCount(p => Shown(f, p), sorted, path);
    FilterCount(p => NotTheFlag(f, p), Filter(p => Shown(f, p), sorted), path);
    if f.flag.Some? && path == f.path + f.flag.value {
      assert name == path[|f.path|..] == f.flag.value;
    }
  }

  function Created(f: Folder, n: nat): (r: seq<string>)
    ensures |r| == n && forall k | 0 <= k < n :: r[k] == PartitionPath(f, k)
  {
    seq(n, k requires 0 <= k < n => PartitionPath(f, k))
  }

  lemma LexOrder()
    ensures TotalPreorder(LexLe)
    ensures forall a, b :: LexLe(a, b) && LexLe(b, a) ==> a == b
  {
    forall a, b ensures (LexLe(a, b) || LexLe(b, a)) && (LexLe(a, b) && LexLe(b, a) ==> a == b) {
      LexTotal(a, b);
    }
    forall a, b, c | LexLe(a, b) && LexLe(b, c) ensures LexLe(a, c) {
      LexTransitive(a, b, c);
    }
  }

  lemma PathOrder(f: Folder, a: nat, b: nat)
    ensures LexLe(PartitionPath(f, a), PartitionPath(f, b)) <==> LexLe(Padded(a) + f.extension, Padded(b) + f.extension)
  {
    CommonStart(f.path, "part-" + (Padded(a) + f.extension), "part-" + (Padded(b) + f.extension));
    CommonStart("part-", Padded(a) + f.extension, Padded(b) + f.extension);
  }

  lemma FourDigitsInOrder(f: Folder, a: nat, b: nat)
    requires a <= b < 10000
    ensures LexLe(PartitionPath(f, a), PartitionPath(f, b))
  {
    PathOrder(f, a, b);
    if a < b {
      PaddedLength(a);
      PaddedLength(b);
      ValuePadded(a);
      ValuePadded(b);
      OrderOfEqualLength(Padded(a), Padded(b), f.extension, f.extension);
    } else {
      LexTotal(Padded(a) + f.extension, Padded(a) + f.extension);
    }
  }

  lemma FirstDigit(n: nat)
    requires n >= 10
    ensures Decimal(n)[0] == Decimal(n / 10)[0]
  {
  }

  lemma Starts9999()
    ensures Padded(9999) != "" && Padded(9999)[0] == '9'
  {
    FirstDigit(9999);
    FirstDigit(999);
    FirstDigit(99);
    DecimalLength(9999, 3);
    assert Pow10(3) == 1000;
    PaddedLength(9999);
  }

  lemma Starts10000()
    ensures Padded(10000) != "" && Padded(10000)[0] == '1'
  {
    FirstDigit(10000);
    FirstDigit(1000);
    FirstDigit(100);
    FirstDigit(10);
    PaddedLength(10000);
  }

  /** The partition after 9999 sorts before it. */
  lemma FiveDigitsOutOfOrder(f: Folder)
    ensures !LexLe(PartitionPath(f, 9999), PartitionPath(f, 10000))
  {
    PathOrder(f, 9999, 10000);
    Starts9999();
    Starts10000();
  }

  lemma CreatedSortedExactly(f: Folder, n: nat)
    ensures SortedBy(LexLe, Created(f, n)) <==> n <= 10000
  {
    if n <= 10000 {
      forall i, j | 0 <= i < j < n ensures LexLe(Created(f, n)[i], Created(f, n)[j]) {
        FourDigitsInOrder(f, i, j);
      }
    } else {
      FiveDigitsOutOfOrder(f);
      assert Created(f, n)[9999] == PartitionPath(f, 9999) && Created(f, n)[10000] == PartitionPath(f, 10000);
    }
  }

  /** What the listing leaves out: meta files and the flag. */
  predicate LeftOut(f: Folder, path: string) {
    IsMetaFile(f, path) || !NotTheFlag(f, path)
  }

  lemma ListedCount(f: Folder, all: seq<string>, x: string)
    ensures multiset(ListPartitions(f, all))[x] == if LeftOut(f, x) then 0 else multiset(all)[x]
  {
    var sorted := Sort(LexLe, all);
    FilterCount(p => Shown(f, p), sorted, x);
    FilterCount(p => NotTheFlag(f, p), Filter(p => Shown(f, p), sorted), x);
  }

  /** The folder holds `n` automatic partitions, none of them left out, and otherwise only files that are. */
  ghost predicate Holds(f: Folder, all: seq<string>, others: seq<string>, n: nat) {
    && multiset(all) == multiset(Created(f, n)) + multiset(others)
    && (forall p | p in others :: LeftOut(f, p))
    && (forall k | 0 <= k < n :: !LeftOut(f, PartitionPath(f, k)))
  }

  lemma ListedExactly(f: Folder, all: seq<string>, others: seq<string>, n: nat)
    requires Holds(f, all, others, n)
    ensures multiset(ListPartitions(f, all)) == multiset(Created(f, n))
  {
    var listed := ListPartitions(f, all);
    forall x ensures multiset(listed)[x] == multiset(Created(f, n))[x] {
      ListedCount(f, all, x);
      assert x in others ==> LeftOut(f, x);
      assert x in Created(f, n) ==> !LeftOut(f, x);
    }
  }

  lemma ListedSorted(f: Folder, all: seq<string>)
    ensures SortedBy(LexLe, ListPartitions(f, all))
  {
    LexOrder();
    SortSorted(LexLe, all);
    FilterSorted(LexLe, p => Shown(f, p), Sort(LexLe, all));
    FilterSorted(LexLe, p => NotTheFlag(f, p), Filter(p => Shown(f, p), Sort(LexLe, all)));
  }

  /** When the folder holds `n` automatic partitions and otherwise only files that are left out, the listing is exactly the
      partitions; and it has them in the order of creation exactly up to 10000 of them. */
  lemma ListingExactly(f: Folder, all: seq<string>, others: seq<string>, n: nat)
    requires Holds(f, all, others, n)
    ensures multiset(ListPartitions(f, all)) == multiset(Created(f, n))
    ensures ListPartitions(f, all) == Created(f, n) <==> n <= 10000
  {
    ListedExactly(f, all, others, n);
    ListedSorted(f, all);
    CreatedSortedExactly(f, n);
    if n <= 10000 {
      LexOrder();
      SortedUnique(LexLe, ListPartitions(f, all), Created(f, n));
    }
  }

  /** With the default flag a partition is left out only when the configuration lists its very name as a meta file. */
  lemma PartitionsAreShown(f: Folder, n: nat)
    requires f.path == "" || f.path[|f.path| - 1] == '/'
    requires '/' !in f.extension && f.flag in {None, Some(DEFAULT_FLAG)}
    ensures LeftOut(f, PartitionPath(f, n)) <==> "part-" + (Padded(n) + f.extension) in f.metaFiles
  {
    var name := "part-" + (Padded(n) + f.extension);
    assert '/' !in Padded(n);
    BaseNameOf(f.path, name);
    assert name[0] == 'p' && DEFAULT_FLAG[0] == '_';
    assert (f.path + name)[|f.path|] == 'p' && (f.path + DEFAULT_FLAG)[|f.path|] == '_';
  }

  /** The target a folder is written through is its first automatic partition. */
  lemma WriteTargetIsFirst(f: Folder)
    ensures f.path + ("part-0000" + f.extension) == PartitionPath(f, 0)
  {
    assert Padded(0) == "0000";
    assert "part-0000" + f.extension == "part-" + (Padded(0) + f.extension);
  }
}
