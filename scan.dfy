/**
 * The scanning loop the three scripts share: walk the directory, read every
 * ".js" file, run each pattern of each group over its text and append one
 * record per match to that group's list. The regular-expression engine is
 * the parameter `findall`, which maps a pattern's source text and a file's
 * text to the list of captured strings, in order.
 */
module Scan {
  import opened Options
  import opened Text
  import opened Order

  /** One entry of a pattern table: the regular expression (as written) and its category. */
  datatype Pattern = Pattern(regex: string, category: string)

  /** A named group of patterns; the table's groups are kept in declaration order. */
  datatype Group = Group(name: string, patterns: seq<Pattern>)

  /** A file met by the directory walk: its name and its text, `None` when opening or decoding it fails. */
  datatype SourceFile = SourceFile(name: string, content: Option<string>)

  /** The walk only opens files whose name ends in ".js". */
  predicate IsJs(f: SourceFile) {
    EndsWith(f.name, ".js")
  }

  /** A ".js" file whose text could be read: the only files whose matches are recorded. */
  predicate Scanned(f: SourceFile) {
    IsJs(f) && f.content.Some?
  }

  /** The group names of a table are distinct, as the keys of a Python dict are. */
  ghost predicate DistinctNames(table: seq<Group>) {
    forall i, j :: 0 <= i < j < |table| ==> table[i].name != table[j].name
  }

  function Names(table: seq<Group>): set<string> {
    set i | 0 <= i < |table| :: table[i].name
  }

  /** One record per match, built by `mk(match, category, file name)`, in match order. */
  function MatchRecords<R>(ms: seq<string>, category: string, file: string, mk: (string, string, string) -> R): (r: seq<R>)
    ensures |r| == |ms|
    ensures forall k :: 0 <= k < |ms| ==> r[k] == mk(ms[k], category, file)
  {
    seq(|ms|, k requires 0 <= k < |ms| => mk(ms[k], category, file))
  }

  /** The records the patterns `ps` produce on one text, pattern by pattern. */
  function PatternRecords<R>(ps: seq<Pattern>, text: string, file: string,
                             findall: (string, string) -> seq<string>, mk: (string, string, string) -> R): seq<R>
  {
    if ps == [] then []
    else
      var last := ps[|ps| - 1];
      PatternRecords(ps[..|ps| - 1], text, file, findall, mk) + MatchRecords(findall(last.regex, text), last.category, file, mk)
  }

  /** The records group `g` gets from file `f`: none unless the file is scanned. */
  function FileRecords<R>(g: Group, f: SourceFile, findall: (string, string) -> seq<string>, mk: (string, string, string) -> R): seq<R> {
    if Scanned(f) then PatternRecords(g.patterns, f.content.value, f.name, findall, mk) else []
  }

  /** The list a group holds after the walk over `files`, in walk order. */
  function GroupRecords<R>(g: Group, files: seq<SourceFile>, findall: (string, string) -> seq<string>, mk: (string, string, string) -> R): seq<R> {
    if files == [] then []
    else GroupRecords(g, files[..|files| - 1], findall, mk) + FileRecords(g, files[|files| - 1], findall, mk)
  }

  /** The `matched_results` dictionary after the walk: each group's name mapped to its list. */
  function Matched<R>(table: seq<Group>, files: seq<SourceFile>, findall: (string, string) -> seq<string>, mk: (string, string, string) -> R): (m: map<string, seq<R>>)
    requires DistinctNames(table)
    ensures m.Keys == Names(table)
    ensures forall t :: 0 <= t < |table| ==> m[table[t].name] == GroupRecords(table[t], files, findall, mk)
  {
    map t | 0 <= t < |table| :: table[t].name := GroupRecords(table[t], files, findall, mk)
  }

  /** A dictionary with the table's names as keys and each group's list as value is `Matched`. */
  lemma MatchedByGroup<R>(table: seq<Group>, files: seq<SourceFile>, findall: (string, string) -> seq<string>,
                          mk: (string, string, string) -> R, results: map<string, seq<R>>)
    requires DistinctNames(table)
    requires results.Keys == Names(table)
    requires forall t :: 0 <= t < |table| ==> results[table[t].name] == GroupRecords(table[t], files, findall, mk)
    ensures results == Matched(table, files, findall, mk)
  {
    var m := Matched(table, files, findall, mk);
    forall name | name in results ensures results[name] == m[name] {
      var t :| 0 <= t < |table| && table[t].name == name;
    }
  }

  /** The number of ".js" files met. */
  function CountJs(files: seq<SourceFile>): (n: nat)
    ensures n <= |files|
  {
    if files == [] then 0 else CountJs(files[..|files| - 1]) + if IsJs(files[|files| - 1]) then 1 else 0
  }

  /** The number of ".js" files that could be read. */
  function CountScanned(files: seq<SourceFile>): (n: nat)
    ensures n <= CountJs(files)
  {
    if files == [] then 0 else CountScanned(files[..|files| - 1]) + if Scanned(files[|files| - 1]) then 1 else 0
  }

  /** `r` is the record built from match `k` of pattern `j` of `ps` on `text`. */
  ghost predicate FromMatch<R>(ps: seq<Pattern>, text: string, file: string,
                         findall: (string, string) -> seq<string>, mk: (string, string, string) -> R, j: int, k: int, r: R) {
    && 0 <= j < |ps|
    && 0 <= k < |findall(ps[j].regex, text)|
    && r == mk(findall(ps[j].regex, text)[k], ps[j].category, file)
  }

  /** A record comes from the patterns exactly when some match of some pattern builds it. */
  lemma {:induction false} PatternRecordsExactly<R>(ps: seq<Pattern>, text: string, file: string,
                                                     findall: (string, string) -> seq<string>, mk: (string, string, string) -> R, r: R)
    ensures r in PatternRecords(ps, text, file, findall, mk) <==> exists j, k :: FromMatch(ps, text, file, findall, mk, j, k, r)
  {
    if ps != [] {
      var init, last := ps[..|ps| - 1], ps[|ps| - 1];
      PatternRecordsExactly(init, text, file, findall, mk, r);
      var ms := findall(last.regex, text);
      var tail := MatchRecords(ms, last.category, file, mk);
      if r in tail {
        var k :| 0 <= k < |tail| && tail[k] == r;
        assert FromMatch(ps, text, file, findall, mk, |ps| - 1, k, r);
      } else if r in PatternRecords(init, text, file, findall, mk) {
        var j, k :| FromMatch(init, text, file, findall, mk, j, k, r);
        assert FromMatch(ps, text, file, findall, mk, j, k, r);
      } else {
        forall j, k | FromMatch(ps, text, file, findall, mk, j, k, r) ensures false {
          if j < |init| {
            assert FromMatch(init, text, file, findall, mk, j, k, r);
          }
        }
      }
    }
  }

  /**
   * A record is in a group's list exactly when some scanned file supplies it
   * through one of the group's patterns: files that are not ".js" files, or
   * cannot be read, contribute nothing.
   */
  lemma {:induction false} GroupRecordsExactly<R>(g: Group, files: seq<SourceFile>,
                                                   findall: (string, string) -> seq<string>, mk: (string, string, string) -> R, r: R)
    ensures r in GroupRecords(g, files, findall, mk) <==>
              exists i :: 0 <= i < |files| && Scanned(files[i]) && r in PatternRecords(g.patterns, files[i].content.value, files[i].name, findall, mk)
  {
    if files != [] {
      var init, last := files[..|files| - 1], files[|files| - 1];
      var earlier, here := GroupRecords(g, init, findall, mk), FileRecords(g, last, findall, mk);
      assert GroupRecords(g, files, findall, mk) == earlier + here;
      GroupRecordsExactly(g, init, findall, mk, r);
      if r in here {
        assert 0 <= |files| - 1 < |files| && Scanned(files[|files| - 1]);
      } else if r in earlier {
        var i :| 0 <= i < |init| && Scanned(init[i]) && r in PatternRecords(g.patterns, init[i].content.value, init[i].name, findall, mk);
        assert files[i] == init[i];
      } else {
        forall i | 0 <= i < |files| && Scanned(files[i])
          ensures r !in PatternRecords(g.patterns, files[i].content.value, files[i].name, findall, mk)
        {
          if i < |init| {
            assert files[i] == init[i];
          } else {
            assert files[i] == last;
          }
        }
      }
    }
  }

  /**
   * The scanning loop: walk `files` in order; for each ".js" file that can be
   * read, for each group of `table` in order, for each of its patterns in
   * order, append one record per match to that group's list. Also counts the
   * ".js" files met and those read.
   */
  method Collect<R>(table: seq<Group>, files: seq<SourceFile>,
                    findall: (string, string) -> seq<string>, mk: (string, string, string) -> R)
    returns (results: map<string, seq<R>>, total: nat, processed: nat)
    requires DistinctNames(table)
    ensures results.Keys == Names(table)
    ensures forall t :: 0 <= t < |table| ==> results[table[t].name] == GroupRecords(table[t], files, findall, mk)
    ensures total == CountJs(files) && processed == CountScanned(files)
  {
    results := map name | name in Names(table) :: [];
    total, processed := 0, 0;
    for i := 0 to |files|
      invariant results.Keys == Names(table)
      invariant forall t :: 0 <= t < |table| ==> results[table[t].name] == GroupRecords(table[t], files[..i], findall, mk)
      invariant total == CountJs(files[..i]) && processed == CountScanned(files[..i])
    {
      var file := files[i];
      WalkStep(table, files, i, findall, mk);
      if EndsWith(file.name, ".js") {
        total := total + 1;
        if file.content.Some? {
          processed := processed + 1;
          results := ScanFile(table, file.name, file.content.value, findall, mk, results);
        }
      }
    }
    assert files[..|files|] == files;
  }

  /** What one more file adds to each group's list and to the two counts. */
  lemma WalkStep<R>(table: seq<Group>, files: seq<SourceFile>, i: nat,
                    findall: (string, string) -> seq<string>, mk: (string, string, string) -> R)
    requires i < |files|
    ensures forall t :: 0 <= t < |table| ==>
              GroupRecords(table[t], files[..i + 1], findall, mk) == GroupRecords(table[t], files[..i], findall, mk) + FileRecords(table[t], files[i], findall, mk)
    ensures CountJs(files[..i + 1]) == CountJs(files[..i]) + if IsJs(files[i]) then 1 else 0
    ensures CountScanned(files[..i + 1]) == CountScanned(files[..i]) + if Scanned(files[i]) then 1 else 0
  {
    assert files[..i + 1][..i] == files[..i];
    assert files[..i + 1][i] == files[i];
  }

  /** The body of the walk for one readable ".js" file: every group's list grows by that file's records. */
  method ScanFile<R>(table: seq<Group>, file: string, text: string,
                     findall: (string, string) -> seq<string>, mk: (string, string, string) -> R,
                     before: map<string, seq<R>>)
    returns (results: map<string, seq<R>>)
    requires DistinctNames(table)
    requires before.Keys == Names(table)
    ensures results.Keys == Names(table)
    ensures forall t :: 0 <= t < |table| ==>
              results[table[t].name] == before[table[t].name] + PatternRecords(table[t].patterns, text, file, findall, mk)
  {
    results := before;
    for gi := 0 to |table|
      invariant results.Keys == Names(table)
      invariant forall t :: 0 <= t < gi ==>
                  results[table[t].name] == before[table[t].name] + PatternRecords(table[t].patterns, text, file, findall, mk)
      invariant forall t :: gi <= t < |table| ==> results[table[t].name] == before[table[t].name]
    {
      var group := table[gi];
      assert group.name in Names(table);
      var list := AppendGroup(results[group.name], group.patterns, text, file, findall, mk);
      results := results[group.name := list];
      forall t | 0 <= t < |table| && t != gi ensures table[t].name != group.name {
      }
    }
  }

  /** One group on one file: its list grows by the records of each pattern in turn. */
  method AppendGroup<R>(list: seq<R>, patterns: seq<Pattern>, text: string, file: string,
                        findall: (string, string) -> seq<string>, mk: (string, string, string) -> R)
    returns (grown: seq<R>)
    ensures grown == list + PatternRecords(patterns, text, file, findall, mk)
  {
    grown := list;
    for pj := 0 to |patterns|
      invariant grown == list + PatternRecords(patterns[..pj], text, file, findall, mk)
    {
      var pattern := patterns[pj];
      grown := AppendMatches(grown, findall(pattern.regex, text), pattern.category, file, mk);
      assert patterns[..pj + 1][..pj] == patterns[..pj];
      assert PatternRecords(patterns[..pj + 1], text, file, findall, mk)
          == PatternRecords(patterns[..pj], text, file, findall, mk) + MatchRecords(findall(pattern.regex, text), pattern.category, file, mk);
    }
    assert patterns[..|patterns|] == patterns;
  }

  /** The innermost loop: one record appended per match. */
  method AppendMatches<R>(list: seq<R>, matches: seq<string>, category: string, file: string,
                          mk: (string, string, string) -> R)
    returns (grown: seq<R>)
    ensures grown == list + MatchRecords(matches, category, file, mk)
  {
    grown := list;
    ghost var all := MatchRecords(matches, category, file, mk);
    for k := 0 to |matches|
      invariant grown == list + all[..k]
    {
      assert all[..k + 1] == all[..k] + [all[k]];
      grown := grown + [mk(matches[k], category, file)];
    }
    assert all[..|matches|] == all;
  }
}
