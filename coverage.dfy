/**
  * processCoverageResults of scripts/update-readme-stats.ts: the summary
  * totals copied from the "total" entry, every other file path listed in
  * iteration order, and statement counts summed per package, the package
  * being the first path segment after "src/".
  */
module Coverage {
  import opened Wrappers

  /** `{ total, covered }` */
  datatype Counts = Counts(total: int, covered: int)

  /** The part of a coverage entry the script reads. */
  datatype FileCoverage = FileCoverage(statements: Counts, branches: Counts, functions: Counts)

  /** Object.entries(coverageResults): keys with their entries, in iteration order. */
  type Entries = seq<(string, FileCoverage)>

  /** CoverageData without its README rendering. */
  datatype CoverageData = CoverageData(
    statements: Counts, branches: Counts, functions: Counts,
    files: seq<string>, packages: map<string, Counts>)

  /** Reading `total.statements` of a missing "total" entry throws. */
  datatype CoverageError = MissingTotal

  // ---------------------------------------------------------------------
  // The package pattern /src\/(.+?)\//
  // ---------------------------------------------------------------------

  /** The characters a regular-expression `.` does not match. */
  predicate IsLineTerminator(c: char) {
    c == '\n' || c == '\r' || c == '\U{2028}' || c == '\U{2029}'
  }

  /** No line terminator in s[a..b]. */
  predicate ClearRun(s: string, a: int, b: int)
    requires 0 <= a <= b <= |s|
  {
    forall m :: a <= m < b ==> !IsLineTerminator(s[m])
  }

  /** The pattern matches from index a with its closing "/" at index k: the group is s[a + 4..k]. */
  predicate MatchesAt(s: string, a: int, k: int) {
    && 0 <= a && a + 4 < k < |s|
    && s[a..a + 4] == "src/"
    && s[k] == '/'
    && ClearRun(s, a + 4, k)
  }

  /** The first "/" at or after j, unless a line terminator comes before it. */
  function SlashFrom(s: string, j: nat): (r: Option<nat>)
    requires j <= |s|
    ensures r.Some? ==> j <= r.value < |s| && s[r.value] == '/' && ClearRun(s, j, r.value)
    ensures r.Some? ==> forall m :: j <= m < r.value ==> s[m] != '/'
    ensures r.None? ==> forall k :: j <= k < |s| && s[k] == '/' ==> !ClearRun(s, j, k)
    decreases |s| - j
  {
    if j == |s| then None
    else if s[j] == '/' then Some(j)
    else if IsLineTerminator(s[j]) then None
    else SlashFrom(s, j + 1)
  }

  /** The shortest match starting at a, given by the index of its closing "/". */
  function MatchFrom(s: string, a: nat): (r: Option<nat>)
    ensures r.Some? ==> MatchesAt(s, a, r.value)
    ensures r.Some? ==> forall k :: a <= k < r.value ==> !MatchesAt(s, a, k)
    ensures r.None? ==> forall k :: !MatchesAt(s, a, k)
  {
    if a + 4 < |s| && s[a..a + 4] == "src/" && !IsLineTerminator(s[a + 4]) then
      SlashFrom(s, a + 5)
    else None
  }

  /** The leftmost start at or after a from which the pattern matches, with its shortest match. */
  function FirstMatch(s: string, a: nat): (r: Option<(nat, nat)>)
    ensures r.Some? ==> a <= r.value.0 && MatchesAt(s, r.value.0, r.value.1)
    ensures r.Some? ==> forall k :: r.value.0 <= k < r.value.1 ==> !MatchesAt(s, r.value.0, k)
    ensures r.Some? ==> forall b, k :: a <= b < r.value.0 ==> !MatchesAt(s, b, k)
    ensures r.None? ==> forall b, k :: a <= b ==> !MatchesAt(s, b, k)
    decreases |s| - a
  {
    if a >= |s| then None
    else
      match MatchFrom(s, a)
      case Some(k) => Some((a, k))
      case None => FirstMatch(s, a + 1)
  }

  /** `filePath.match(/src\/(.+?)\//)?.[1]` */
  function PackageName(path: string): (r: Option<string>)
    ensures r.None? <==> forall a, k :: !MatchesAt(path, a, k)
    ensures r.Some? ==> |r.value| >= 1 && "src/" + r.value + "/" <= path[PackageStart(path)..]
  {
    match FirstMatch(path, 0)
    case None => None
    case Some((a, k)) =>
      assert path[a..k + 1] == "src/" + path[a + 4..k] + "/";
      Some(path[a + 4..k])
  }

  /** Where the matched "src/" begins (0 when nothing matches). */
  function PackageStart(path: string): (a: nat)
    ensures a <= |path|
  {
    match FirstMatch(path, 0)
    case None => 0
    case Some((a, _)) => a
  }

  /**
    * The package is taken from the leftmost "src/" that starts a match, and
    * is the shortest group there: it holds no "/" past its first character
    * and no line terminator.
    */
  lemma PackageNameLeftmostShortest(path: string)
    requires PackageName(path).Some?
    ensures var a, name := PackageStart(path), PackageName(path).value;
      && MatchesAt(path, a, a + 4 + |name|)
      && path[a + 4..a + 4 + |name|] == name
      && (forall b, k :: MatchesAt(path, b, k) ==> a < b || (a == b && a + 4 + |name| <= k))
      && (forall m :: 1 <= m < |name| ==> name[m] != '/')
      && (forall m :: 0 <= m < |name| ==> !IsLineTerminator(name[m]))
  {
    var (a, k) := FirstMatch(path, 0).value;
    var name := path[a + 4..k];
    forall m | 1 <= m < |name|
      ensures name[m] != '/'
    {
      assert name[m] == path[a + 4 + m];
      assert !MatchesAt(path, a, a + 4 + m);
    }
    forall m | 0 <= m < |name|
      ensures !IsLineTerminator(name[m])
    {
      assert name[m] == path[a + 4 + m];
    }
  }

  /** A path under src/ with a folder yields that folder. */
  lemma PackageOfSourceFile(dir: string, rest: string)
    requires |dir| >= 1 && '/' !in dir
    requires forall m :: 0 <= m < |dir| ==> !IsLineTerminator(dir[m])
    ensures PackageName("src/" + dir + "/" + rest) == Some(dir)
  {
    var path := "src/" + dir + "/" + rest;
    var k := 4 + |dir|;
    assert path[0..4] == "src/";
    assert path[4..k] == dir;
    assert MatchesAt(path, 0, k);
    assert forall m :: 4 <= m < k ==> path[m] == dir[m - 4];
  }

  /** A path without any "/" after a "src/" has no package. */
  lemma NoSlashNoPackage(path: string)
    requires '/' !in path
    ensures PackageName(path) == None
  {
    forall a, k
      ensures !MatchesAt(path, a, k)
    {
      if 0 <= k < |path| {
        assert path[k] in path;
      }
    }
  }

  // ---------------------------------------------------------------------
  // The aggregation loop
  // ---------------------------------------------------------------------

  /** `coverageResults.total`: the entry stored under the key "total". */
  function TotalOf(results: Entries): (r: Option<FileCoverage>)
    ensures r.Some? ==> exists k :: 0 <= k < |results| && results[k] == ("total", r.value)
    ensures r.None? <==> forall k :: 0 <= k < |results| ==> results[k].0 != "total"
  {
    if results == [] then None
    else if results[0].0 == "total" then Some(results[0].1)
    else
      var r := TotalOf(results[1..]);
      assert forall k :: 1 <= k < |results| ==> results[k] == results[1..][k - 1];
      r
  }

  /** The file list and the package table while the loop runs. */
  datatype Acc = Acc(files: seq<string>, packages: map<string, Counts>)

  /** `pkg.total += fileStats.total; pkg.covered += fileStats.covered` on a package that starts at zero. */
  function AddStatements(packages: map<string, Counts>, name: string, stats: Counts): (r: map<string, Counts>)
    ensures r.Keys == packages.Keys + {name}
    ensures forall p :: p in packages && p != name ==> r[p] == packages[p]
    ensures r[name] == Add(CountsOf(packages, name), stats)
  {
    var pkg := if name in packages then packages[name] else Counts(0, 0);
    packages[name := Counts(pkg.total + stats.total, pkg.covered + stats.covered)]
  }

  /** Setting a missing package to zero and then adding to it is one update. */
  lemma ResetThenAdd(packages: map<string, Counts>, name: string, stats: Counts)
    ensures var table := if name in packages then packages else packages[name := Counts(0, 0)];
      table[name := Counts(table[name].total + stats.total, table[name].covered + stats.covered)] ==
        AddStatements(packages, name, stats)
  {
    if name !in packages {
      var table := packages[name := Counts(0, 0)];
      var x := Counts(stats.total, stats.covered);
      assert table[name := x] == packages[name := x];
    }
  }

  /** One iteration of the loop. */
  function Step(acc: Acc, entry: (string, FileCoverage)): Acc {
    var (filePath, fileData) := entry;
    if filePath == "total" then acc
    else
      var files := acc.files + [filePath];
      match PackageName(filePath)
      case None => Acc(files, acc.packages)
      case Some(name) => Acc(files, AddStatements(acc.packages, name, fileData.statements))
  }

  /** The loop over the remaining entries. */
  function Run(acc: Acc, entries: Entries): Acc
    decreases |entries|
  {
    if entries == [] then acc else Run(Step(acc, entries[0]), entries[1..])
  }

  /** What the loop leaves behind, starting from an empty list and table. */
  function Aggregate(results: Entries): Acc {
    Run(Acc([], map[]), results)
  }

  /**
    * The loop body: skip "total", push the path, and add the file's
    * statements to its package, creating the package at zero first.
    */
  method AddEntry(files: seq<string>, packages: map<string, Counts>, entry: (string, FileCoverage))
    returns (files': seq<string>, packages': map<string, Counts>)
    ensures Acc(files', packages') == Step(Acc(files, packages), entry)
  {
    var (filePath, fileData) := entry;
    files', packages' := files, packages;
    if filePath == "total" {
      return;
    }
    files' := files' + [filePath];
    var packageName := PackageName(filePath);
    if packageName.Some? {
      var name := packageName.value;
      if name !in packages' {
        packages' := packages'[name := Counts(0, 0)];
      }
      var pkg := packages'[name];
      packages' := packages'[name := Counts(pkg.total + fileData.statements.total, pkg.covered + fileData.statements.covered)];
      ResetThenAdd(packages, name, fileData.statements);
    }
  }

  /** processCoverageResults, without the README writer it ends by calling. */
  method ProcessCoverageResults(results: Entries) returns (r: Result<CoverageData, CoverageError>)
    ensures r.Err? <==> forall k :: 0 <= k < |results| ==> results[k].0 != "total"
    ensures r.Ok? ==> var total := TotalOf(results).value;
      && r.value.statements == total.statements
      && r.value.branches == total.branches
      && r.value.functions == total.functions
      && r.value.files == Aggregate(results).files
      && r.value.packages == Aggregate(results).packages
  {
    var total := TotalOf(results);
    if total.None? {
      return Err(MissingTotal);
    }
    var files: seq<string> := [];
    var packages: map<string, Counts> := map[];
    var i := 0;
    while i < |results|
      invariant 0 <= i <= |results|
      invariant Run(Acc(files, packages), results[i..]) == Aggregate(results)
    {
      ghost var before := Acc(files, packages);
      files, packages := AddEntry(files, packages, results[i]);
      RunCons(before, results[i..]);
      assert results[i..][1..] == results[i + 1..];
      i := i + 1;
    }
    assert results[i..] == [];
    return Ok(CoverageData(total.value.statements, total.value.branches, total.value.functions, files, packages));
  }

  // ---------------------------------------------------------------------
  // What the aggregate holds, against independent definitions
  // ---------------------------------------------------------------------

  /** Every key but "total", in iteration order. */
  function FileKeys(results: Entries): (r: seq<string>)
    ensures forall k :: 0 <= k < |r| ==> r[k] != "total"
  {
    if results == [] then []
    else (if results[0].0 == "total" then [] else [results[0].0]) + FileKeys(results[1..])
  }

  /** The entry is a file (not "total") whose path names package p. */
  predicate InPackage(entry: (string, FileCoverage), p: string) {
    entry.0 != "total" && PackageName(entry.0) == Some(p)
  }

  /** Some file other than "total" belongs to package p. */
  predicate HasPackageFile(results: Entries, p: string) {
    exists k :: 0 <= k < |results| && InPackage(results[k], p)
  }

  /** Counts added field by field. */
  function Add(a: Counts, b: Counts): Counts {
    Counts(a.total + b.total, a.covered + b.covered)
  }

  /** The statement counts of the files of package p, summed. */
  function PackageSum(results: Entries, p: string): Counts {
    if results == [] then Counts(0, 0)
    else if InPackage(results[0], p) then Add(results[0].1.statements, PackageSum(results[1..], p))
    else PackageSum(results[1..], p)
  }

  /** The table's counts for p, zero while p is absent. */
  function CountsOf(packages: map<string, Counts>, p: string): Counts {
    if p in packages then packages[p] else Counts(0, 0)
  }

  lemma RunCons(acc: Acc, entries: Entries)
    requires entries != []
    ensures Run(acc, entries) == Run(Step(acc, entries[0]), entries[1..])
  {
  }

  /** One iteration adds package p exactly for a file of p, and adds that file's statements to it. */
  lemma StepPackages(acc: Acc, entry: (string, FileCoverage), p: string)
    ensures p in Step(acc, entry).packages <==> p in acc.packages || InPackage(entry, p)
    ensures CountsOf(Step(acc, entry).packages, p) ==
      if InPackage(entry, p) then Add(CountsOf(acc.packages, p), entry.1.statements) else CountsOf(acc.packages, p)
  {
  }

  /** Some file of the entries belongs to p exactly when the first does or one of the rest does. */
  lemma HasPackageFileCons(entries: Entries, p: string)
    requires entries != []
    ensures HasPackageFile(entries, p) <==> InPackage(entries[0], p) || HasPackageFile(entries[1..], p)
  {
    if HasPackageFile(entries[1..], p) {
      var k :| 0 <= k < |entries[1..]| && InPackage(entries[1..][k], p);
      assert entries[k + 1] == entries[1..][k];
    }
    if HasPackageFile(entries, p) && !InPackage(entries[0], p) {
      var k :| 0 <= k < |entries| && InPackage(entries[k], p);
      assert entries[1..][k - 1] == entries[k];
    }
  }

  /** The loop appends the non-"total" keys to the list it starts with. */
  lemma {:induction false} RunFiles(acc: Acc, entries: Entries)
    ensures Run(acc, entries).files == acc.files + FileKeys(entries)
    decreases |entries|
  {
    if entries != [] {
      RunFiles(Step(acc, entries[0]), entries[1..]);
    }
  }

  /** The loop adds each package's sum to what the table held for it, and adds packages exactly for matched files. */
  lemma {:induction false} RunPackages(acc: Acc, entries: Entries, p: string)
    ensures p in Run(acc, entries).packages <==> p in acc.packages || HasPackageFile(entries, p)
    ensures CountsOf(Run(acc, entries).packages, p) == Add(CountsOf(acc.packages, p), PackageSum(entries, p))
    decreases |entries|
  {
    if entries != [] {
      var next := Step(acc, entries[0]);
      RunCons(acc, entries);
      RunPackages(next, entries[1..], p);
      StepPackages(acc, entries[0], p);
      HasPackageFileCons(entries, p);
    }
  }

  /** `files` is every key but "total", once each, in iteration order. */
  lemma AggregateFiles(results: Entries)
    ensures Aggregate(results).files == FileKeys(results)
    ensures "total" !in Aggregate(results).files
  {
    RunFiles(Acc([], map[]), results);
  }

  /** A package is listed exactly when some file matches it, with its files' statement counts summed. */
  lemma AggregatePackages(results: Entries, p: string)
    ensures p in Aggregate(results).packages <==> HasPackageFile(results, p)
    ensures p in Aggregate(results).packages ==> Aggregate(results).packages[p] == PackageSum(results, p)
  {
    RunPackages(Acc([], map[]), results, p);
  }

  /** One entry more: listed unless it is "total", and counted only in its own package, if it has one. */
  lemma {:induction false} AggregateAppend(results: Entries, entry: (string, FileCoverage))
    ensures Aggregate(results + [entry]) == Step(Aggregate(results), entry)
  {
    RunAppend(Acc([], map[]), results, entry);
  }

  lemma {:induction false} RunAppend(acc: Acc, entries: Entries, entry: (string, FileCoverage))
    ensures Run(acc, entries + [entry]) == Step(Run(acc, entries), entry)
    decreases |entries|
  {
    if entries == [] {
      assert entries + [entry] == [entry];
      assert [entry][1..] == [];
    } else {
      assert (entries + [entry])[0] == entries[0];
      assert (entries + [entry])[1..] == entries[1..] + [entry];
      RunAppend(Step(acc, entries[0]), entries[1..], entry);
    }
  }

  /** A file whose path has no package is listed but leaves every package as it was. */
  lemma UnmatchedFileOnlyListed(results: Entries, path: string, data: FileCoverage)
    requires path != "total" && PackageName(path).None?
    ensures Aggregate(results + [(path, data)]).files == Aggregate(results).files + [path]
    ensures Aggregate(results + [(path, data)]).packages == Aggregate(results).packages
  {
    AggregateAppend(results, (path, data));
  }

  /** Counts that never report more covered than total statements. */
  predicate WithinTotal(c: Counts) {
    0 <= c.covered <= c.total
  }

  /** When every file covers no more than its total, so does every package. */
  lemma {:induction false} PackageSumWithinTotal(results: Entries, p: string)
    requires forall k :: 0 <= k < |results| ==> WithinTotal(results[k].1.statements)
    ensures WithinTotal(PackageSum(results, p))
  {
    if results != [] {
      assert forall k :: 0 <= k < |results[1..]| ==> results[1..][k] == results[k + 1];
      PackageSumWithinTotal(results[1..], p);
    }
  }
}
