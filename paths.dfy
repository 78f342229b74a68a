/**
 * The path set of `analyze_js_files_for_paths`: every match of the path
 * patterns, trimmed, given a leading "/" and stripped of one trailing "/",
 * collected into a set and returned sorted.
 */
module PathSet {
  import opened Options
  import opened Text
  import opened Order
  import opened Scan

  /** The pattern table of `analyze_js_files_for_paths`; its categories are not used. */
  const AnalysisTable: seq<Group> := [
    Group("PagePath Matches", [
      Pattern("pagePath:\\s*\"(.*?)\"", "pagePath_double_quotes"),
      Pattern("pagePath:\\s*'(.*?)'", "pagePath_single_quotes")]),
    Group("Path Matches", [
      Pattern("path:\\s*\"(.*?)\"", "path_double_quotes"),
      Pattern("path:\\s*'(.*?)'", "path_single_quotes"),
      Pattern("url:\\s*\"([^\"]+)\"", "url_double_quotes"),
      Pattern("url:\\s*'([^']+)'", "url_single_quotes")])
  ]

  /**
   * The normalisation of one match: strip surrounding whitespace, prepend "/"
   * when it does not start with one, then drop one trailing "/".
   */
  function Normalize(found: string): (r: string)
    ensures r == [] || r[0] == '/'
    ensures r == [] <==> Strip(found) == "" || Strip(found) == "/"
  {
    var trimmed := Strip(found);
    var rooted := if StartsWith(trimmed, "/") then trimmed else "/" + trimmed;
    if EndsWith(rooted, "/") then rooted[..|rooted| - 1] else rooted
  }

  /** Already in normal form: starts with "/", does not end with "/", no surrounding whitespace. */
  predicate IsNormalized(p: string) {
    StartsWith(p, "/") && !EndsWith(p, "/") && Strip(p) == p
  }

  /**
   * The strings normalisation leaves unchanged are exactly the normalised
   * ones (and the empty string, which normalises to itself).
   */
  lemma NormalizeFixedPoints(m: string)
    ensures Normalize(m) == m <==> m == "" || IsNormalized(m)
  {
    if m == "" {
      assert Strip(m) == "";
    }
    if IsNormalized(m) {
      assert Normalize(m) == m;
    }
    if m != "" && Normalize(m) == m {
      StripKeepsSolidStart(m);
      assert IsNormalized(m);
    }
  }

  /**
   * Normalising is not idempotent: for a segment `a` (such as "a"), `a + "//"`
   * becomes "/" + a + "/", which normalises again to "/" + a.
   */
  lemma NormalizeNotIdempotent(a: string)
    requires a != [] && !IsSpace(a[0]) && a[0] != '/'
    ensures Normalize(a + "//") == "/" + a + "/"
    ensures Normalize("/" + a + "/") == "/" + a
  {
    var s := a + "//";
    assert s[|s| - 1] == '/';
    StripSolid(s);
    assert !StartsWith(s, "/");
    assert ("/" + s)[..|s|] == "/" + a + "/";
    var t := "/" + a + "/";
    StripSolid(t);
    assert StartsWith(t, "/");
    assert t[..|t| - 1] == "/" + a;
  }

  /**
   * A relative spelling with a trailing "/" and the absolute spelling of a
   * route (such as "api/x/" and "/api/x") meet in one normal form.
   */
  lemma NormalizeSpellings(a: string)
    requires a != [] && !IsSpace(a[0]) && !IsSpace(a[|a| - 1]) && a[0] != '/' && a[|a| - 1] != '/'
    ensures Normalize(a + "/") == "/" + a
    ensures Normalize("/" + a) == "/" + a
  {
    var s := a + "/";
    assert s[|s| - 1] == '/' && s[0] == a[0];
    StripSolid(s);
    assert !StartsWith(s, "/");
    assert ("/" + s)[..|s|] == "/" + a;
    var t := "/" + a;
    assert t[|t| - 1] == a[|a| - 1];
    StripSolid(t);
    assert StartsWith(t, "/") && !EndsWith(t, "/");
  }

  /** The record of one match in the path scan: its normal form. */
  function NormalizedMatch(found: string, category: string, file: string): string {
    Normalize(found)
  }

  /** The paths the groups `groups` find in one file. */
  function FilePaths(groups: seq<Group>, f: SourceFile, findall: (string, string) -> seq<string>): set<string> {
    if groups == [] then {}
    else FilePaths(groups[..|groups| - 1], f, findall) + Elems(FileRecords(groups[|groups| - 1], f, findall, NormalizedMatch))
  }

  /** The paths the pattern table `table` finds in `files`. */
  function FoundPaths(table: seq<Group>, files: seq<SourceFile>, findall: (string, string) -> seq<string>): set<string> {
    if files == [] then {}
    else FoundPaths(table, files[..|files| - 1], findall) + FilePaths(table, files[|files| - 1], findall)
  }

  lemma {:induction false} FilePathsExactly(groups: seq<Group>, f: SourceFile, findall: (string, string) -> seq<string>, p: string)
    ensures p in FilePaths(groups, f, findall) <==>
              exists t :: 0 <= t < |groups| && p in FileRecords(groups[t], f, findall, NormalizedMatch)
  {
    if groups != [] {
      var init := groups[..|groups| - 1];
      FilePathsExactly(init, f, findall, p);
      if p in FileRecords(groups[|groups| - 1], f, findall, NormalizedMatch) {
      } else if p in FilePaths(init, f, findall) {
        var t :| 0 <= t < |init| && p in FileRecords(init[t], f, findall, NormalizedMatch);
        assert groups[t] == init[t];
      } else {
        forall t | 0 <= t < |groups| ensures p !in FileRecords(groups[t], f, findall, NormalizedMatch) {
          if t < |init| {
            assert groups[t] == init[t];
          } else {
            assert t == |groups| - 1;
          }
        }
      }
    }
  }

  lemma {:induction false} FoundPathsByFile(table: seq<Group>, files: seq<SourceFile>, findall: (string, string) -> seq<string>, p: string)
    ensures p in FoundPaths(table, files, findall) <==>
              exists i :: 0 <= i < |files| && p in FilePaths(table, files[i], findall)
  {
    if files != [] {
      var init, last := files[..|files| - 1], files[|files| - 1];
      var earlier, here := FoundPaths(table, init, findall), FilePaths(table, last, findall);
      assert FoundPaths(table, files, findall) == earlier + here;
      FoundPathsByFile(table, init, findall, p);
      if p in here {
        assert 0 <= |files| - 1 < |files| && p in FilePaths(table, files[|files| - 1], findall);
      } else if p in earlier {
        var i :| 0 <= i < |init| && p in FilePaths(table, init[i], findall);
        assert files[i] == init[i];
      } else {
        forall i | 0 <= i < |files| ensures p !in FilePaths(table, files[i], findall) {
          if i < |init| {
            assert files[i] == init[i];
            assert p !in FilePaths(table, init[i], findall);
          } else {
            assert files[i] == last;
          }
        }
      }
    }
  }

  /** `p` is the normal form of match `k` of pattern `j` of group `t`, in file `i`, which is scanned. */
  ghost predicate NormalFormOfMatch(table: seq<Group>, files: seq<SourceFile>, findall: (string, string) -> seq<string>,
                                    i: int, t: int, j: int, k: int, p: string) {
    && 0 <= i < |files| && Scanned(files[i]) && 0 <= t < |table|
    && FromMatch(table[t].patterns, files[i].content.value, files[i].name, findall, NormalizedMatch, j, k, p)
  }

  /**
   * A path is found exactly when it is the normal form of a match of one of
   * the table's patterns in a readable ".js" file.
   */
  lemma FoundPathsExactly(table: seq<Group>, files: seq<SourceFile>, findall: (string, string) -> seq<string>, p: string)
    ensures p in FoundPaths(table, files, findall) <==>
              exists i, t, j, k :: NormalFormOfMatch(table, files, findall, i, t, j, k, p)
  {
    FoundPathsByFile(table, files, findall, p);
    if p in FoundPaths(table, files, findall) {
      var i :| 0 <= i < |files| && p in FilePaths(table, files[i], findall);
      FilePathsExactly(table, files[i], findall, p);
      var t :| 0 <= t < |table| && p in FileRecords(table[t], files[i], findall, NormalizedMatch);
      PatternRecordsExactly(table[t].patterns, files[i].content.value, files[i].name, findall, NormalizedMatch, p);
      var j, k :| FromMatch(table[t].patterns, files[i].content.value, files[i].name, findall, NormalizedMatch, j, k, p);
      assert NormalFormOfMatch(table, files, findall, i, t, j, k, p);
    }
    if exists i, t, j, k :: NormalFormOfMatch(table, files, findall, i, t, j, k, p) {
      var i, t, j, k :| NormalFormOfMatch(table, files, findall, i, t, j, k, p);
      PatternRecordsExactly(table[t].patterns, files[i].content.value, files[i].name, findall, NormalizedMatch, p);
      FilePathsExactly(table, files[i], findall, p);
    }
  }

  /**
   * `analyze_js_files_for_paths`: walk the directory, add the normal form of
   * every match of every pattern in every readable ".js" file to a set, and
   * return the set sorted, with the counts of ".js" files met and read.
   */
  method AnalyzePaths(files: seq<SourceFile>, findall: (string, string) -> seq<string>)
    returns (paths: seq<string>, total: nat, processed: nat)
    ensures StrictlyIncreasing(paths)
    ensures Elems(paths) == FoundPaths(AnalysisTable, files, findall)
    ensures total == CountJs(files) && processed == CountScanned(files)
  {
    var allPaths;
    allPaths, total, processed := CollectPaths(AnalysisTable, files, findall);
    paths := SortedSet(allPaths);
  }

  /** The walk of `analyze_js_files_for_paths` for a given pattern table. */
  method CollectPaths(table: seq<Group>, files: seq<SourceFile>, findall: (string, string) -> seq<string>)
    returns (allPaths: set<string>, total: nat, processed: nat)
    ensures allPaths == FoundPaths(table, files, findall)
    ensures total == CountJs(files) && processed == CountScanned(files)
  {
    allPaths := {};
    total, processed := 0, 0;
    for i := 0 to |files|
      invariant allPaths == FoundPaths(table, files[..i], findall)
      invariant total == CountJs(files[..i]) && processed == CountScanned(files[..i])
    {
      var file := files[i];
      assert files[..i + 1][..i] == files[..i];
      assert files[..i + 1][i] == file;
      if EndsWith(file.name, ".js") {
        total := total + 1;
        if file.content.Some? {
          processed := processed + 1;
          allPaths := AddFilePaths(table, file, findall, allPaths);
        } else {
          FilePathsUnscanned(table, file, findall);
        }
      } else {
        FilePathsUnscanned(table, file, findall);
      }
    }
    assert files[..|files|] == files;
  }

  /** A file the walk does not read contributes no path. */
  lemma {:induction false} FilePathsUnscanned(groups: seq<Group>, f: SourceFile, findall: (string, string) -> seq<string>)
    requires !Scanned(f)
    ensures FilePaths(groups, f, findall) == {}
  {
    if groups != [] {
      FilePathsUnscanned(groups[..|groups| - 1], f, findall);
    }
  }

  /** The body of the walk for one readable ".js" file: the set grows by that file's paths. */
  method AddFilePaths(table: seq<Group>, file: SourceFile, findall: (string, string) -> seq<string>, before: set<string>)
    returns (allPaths: set<string>)
    requires Scanned(file)
    ensures allPaths == before + FilePaths(table, file, findall)
  {
    allPaths := before;
    var text := file.content.value;
    for gi := 0 to |table|
      invariant allPaths == before + FilePaths(table[..gi], file, findall)
    {
      var group := table[gi];
      allPaths := AddGroupPaths(group.patterns, text, file.name, findall, allPaths);
      assert table[..gi + 1][..gi] == table[..gi];
    }
    assert table[..|table|] == table;
  }

  /** One group on one file: add the normal form of each match of each of its patterns in turn. */
  method AddGroupPaths(patterns: seq<Pattern>, text: string, file: string, findall: (string, string) -> seq<string>, before: set<string>)
    returns (allPaths: set<string>)
    ensures allPaths == before + Elems(PatternRecords(patterns, text, file, findall, NormalizedMatch))
  {
    allPaths := before;
    for pj := 0 to |patterns|
      invariant allPaths == before + Elems(PatternRecords(patterns[..pj], text, file, findall, NormalizedMatch))
    {
      var pattern := patterns[pj];
      ghost var prefix := PatternRecords(patterns[..pj], text, file, findall, NormalizedMatch);
      allPaths := AddMatches(findall(pattern.regex, text), pattern.category, file, allPaths);
      assert patterns[..pj + 1][..pj] == patterns[..pj];
      ElemsAppend(prefix, MatchRecords(findall(pattern.regex, text), pattern.category, file, NormalizedMatch));
    }
    assert patterns[..|patterns|] == patterns;
  }

  /** The innermost loop: add the normal form of each match of one pattern. */
  method AddMatches(matches: seq<string>, category: string, file: string, before: set<string>)
    returns (allPaths: set<string>)
    ensures allPaths == before + Elems(MatchRecords(matches, category, file, NormalizedMatch))
  {
    allPaths := before;
    ghost var all := MatchRecords(matches, category, file, NormalizedMatch);
    for k := 0 to |matches|
      invariant allPaths == before + Elems(all[..k])
    {
      var path := NormalizedMatch(matches[k], category, file);
      assert path == all[k];
      GrowByPrefix(before, allPaths, all, k);
      allPaths := allPaths + {path};
    }
    assert all[..|matches|] == all;
  }

  /** Adding the next element keeps the set equal to `before` plus a prefix of `all`. */
  lemma GrowByPrefix<T>(before: set<T>, current: set<T>, all: seq<T>, k: nat)
    requires k < |all| && current == before + Elems(all[..k])
    ensures current + {all[k]} == before + Elems(all[..k + 1])
  {
    ElemsPrefixStep(all, k);
  }
}
