/**
 * `final_path_analysis` of url-js.py: scan the ".js" files with a four-group
 * pattern table, keep each stripped match with its category, then write one
 * section per group that matched (header, one line per distinct record
 * sorted by path with the path column padded to two more than the longest
 * path and the category in brackets, blank line), followed by a block of
 * statistics. Returns the number of lines written, or 0 when the output
 * file cannot be opened.
 */
module FinalReport {
  import opened Options
  import opened Text
  import opened Order
  import opened Scan
  import opened Report

  /** The pattern table of `final_path_analysis`, in declaration order. */
  const FinalTable: seq<Group> := [
    Group("PagePath Matches", [
      Pattern("pagePath:\\s*\"(.*?)\"", "pagePath_double_quotes"),
      Pattern("pagePath:\\s*'(.*?)'", "pagePath_single_quotes")]),
    Group("Path Matches", [
      Pattern("path:\\s*\"(.*?)\"", "path_double_quotes"),
      Pattern("path:\\s*'(.*?)'", "path_single_quotes"),
      Pattern("url:\\s*\"([^\"]+)\"", "url_double_quotes"),
      Pattern("url: \"([^\"]+)", "url_double_quotes")]),
    Group("GET Matches", [
      Pattern("get\\([^()]*?\"([^\"]*?)\"[^()]*?\\)", "get_double_quotes"),
      Pattern("get\\([^()]*?['\\\"]([^'\\\"]*?)['\\\"][^()]*?\\)", "get_single_quotes")]),
    Group("POST Matches", [
      Pattern("post\\([^()]*?\"([^\"]*?)\"[^()]*?\\)", "post_double_quotes"),
      Pattern("POST\\([^()]*?['\\\"]([^'\\\"]*?)['\\\"][^()]*?\\)", "post_single_quotes")])
  ]

  /** The four group names are different, as the keys of a dictionary are. */
  lemma FinalTableNames()
    ensures DistinctNames(FinalTable)
  {
    assert FinalTable[0].name[..2] == "Pa" && |FinalTable[0].name| == 16;
    assert FinalTable[1].name[..2] == "Pa" && |FinalTable[1].name| == 12;
    assert FinalTable[2].name[..2] == "GE";
    assert FinalTable[3].name[..2] == "PO";
  }

  /** `matched_results` after the walk over `files` with this table. */
  function FinalResults(files: seq<SourceFile>, findall: (string, string) -> seq<string>): map<string, seq<Entry>> {
    FinalTableNames();
    Matched(FinalTable, files, findall, Record)
  }

  /** The record appended per match: the stripped match and the category. */
  function Record(found: string, category: string, file: string): Entry {
    Entry(Strip(found), category)
  }

  /** One written line: the path left-justified to `width`, a tab, the category in brackets. */
  function Row(e: Entry, width: nat): (r: string)
    ensures StartsWith(r, e.path) && EndsWith(r, "\t[" + e.category + "]\n")
  {
    PadRight(e.path, width) + "\t[" + e.category + "]\n"
  }

  /** The column width: two more than the longest path. */
  function Width(sorted: seq<Entry>): nat {
    MaxLen(Paths(sorted)) + 2
  }

  /** The lines of a sorted section. */
  function Rows(sorted: seq<Entry>): (rows: seq<string>)
    ensures |rows| == |sorted|
  {
    seq(|sorted|, i requires 0 <= i < |sorted| => Row(sorted[i], Width(sorted)))
  }

  /** A group's section, given the order `order` in which `set(results)` is visited. */
  function Section(group: string, results: seq<Entry>, order: seq<Entry>): (r: string)
    ensures r == "" <==> results == []
  {
    if results == [] then "" else Header(group) + Concat(Rows(SortBy(order, ByPath))) + "\n"
  }

  /** The sections of the groups, in table order. */
  function Sections(table: seq<Group>, results: map<string, seq<Entry>>, orders: seq<seq<Entry>>): (r: string)
    requires |orders| == |table|
    requires forall t :: 0 <= t < |table| ==> table[t].name in results
    ensures r == "" <==> forall t :: 0 <= t < |table| ==> results[table[t].name] == []
  {
    if table == [] then ""
    else
      var n := |table| - 1;
      NoneMatchedStep(table, table[..n], results);
      Sections(table[..n], results, orders[..n]) + Section(table[n].name, results[table[n].name], orders[n])
  }

  /** The number of distinct records over all groups: the number of lines the sections hold. */
  function DistinctTotal(table: seq<Group>, results: map<string, seq<Entry>>): nat
    requires forall t :: 0 <= t < |table| ==> table[t].name in results
  {
    if table == [] then 0
    else DistinctTotal(table[..|table| - 1], results) + |Elems(results[table[|table| - 1].name])|
  }

  /** The closing block: total lines, files read, the directory, and the time of the analysis. */
  function Stats(total: nat, processed: nat, directory: string, stamp: string): (r: string)
    ensures StartsWith(r, Header("统计信息"))
    ensures EndsWith(r, "分析时间: " + stamp + "\n")
  {
    var head, last := Header("统计信息"), "分析时间: " + stamp + "\n";
    var body := "总提取路径数: " + Decimal(total) + "\n"
                + "分析文件数: " + Decimal(processed) + "\n"
                + "文件来源目录: " + directory + "\n";
    assert (head + body + last)[..|head|] == head;
    assert (head + body + last)[|head + body|..] == last;
    head + body + last
  }

  /**
   * A line read back: the path, at least two spaces, the tab at index
   * `width`, then the bracketed category and the line end.
   */
  lemma RowLayout(e: Entry, width: nat)
    requires |e.path| + 2 <= width
    ensures |Row(e, width)| == width + |e.category| + 4
    ensures Row(e, width)[..|e.path|] == e.path
    ensures forall k :: |e.path| <= k < width ==> Row(e, width)[k] == ' '
    ensures Row(e, width)[width] == '\t'
    ensures Row(e, width)[width + 1..] == "[" + e.category + "]\n"
  {
    var p := PadRight(e.path, width);
    assert Row(e, width) == p + ("\t[" + e.category + "]\n");
    assert "\t[" + e.category + "]\n" == "\t" + ("[" + e.category + "]\n");
  }

  /** `row` is `e` laid out with its tab at `width`, as `RowLayout` reads it back. */
  predicate Fits(row: string, e: Entry, width: nat) {
    && |e.path| + 2 <= width && |row| == width + |e.category| + 4
    && row[..|e.path|] == e.path
    && (forall k :: |e.path| <= k < width ==> row[k] == ' ')
    && row[width] == '\t'
    && row[width + 1..] == "[" + e.category + "]\n"
  }

  lemma RowAt(sorted: seq<Entry>, i: nat)
    requires i < |sorted|
    ensures Rows(sorted)[i] == Row(sorted[i], Width(sorted))
    ensures |sorted[i].path| + 2 <= Width(sorted)
  {
    assert Paths(sorted)[i] == sorted[i].path;
  }

  /**
   * The lines of a sorted section line up: each path is followed by at
   * least two spaces, every tab sits in the same column, two past the
   * longest path, and some path has exactly two spaces after it.
   */
  lemma RowsAligned(sorted: seq<Entry>)
    ensures forall i :: 0 <= i < |sorted| ==> Fits(Rows(sorted)[i], sorted[i], Width(sorted))
    ensures sorted != [] ==> exists i :: 0 <= i < |sorted| && |sorted[i].path| + 2 == Width(sorted)
  {
    forall i | 0 <= i < |sorted| ensures Fits(Rows(sorted)[i], sorted[i], Width(sorted)) {
      RowAt(sorted, i);
      RowLayout(sorted[i], Width(sorted));
    }
    if sorted != [] {
      var i :| 0 <= i < |Paths(sorted)| && |Paths(sorted)[i]| == MaxLen(Paths(sorted));
      assert |Paths(sorted)| == |sorted|;
      assert |sorted[i].path| + 2 == Width(sorted);
    }
  }

  /**
   * A section, whatever the set's iteration order: empty exactly when the
   * group matched nothing; otherwise its lines are those of the distinct
   * records, each once, sorted by path.
   */
  lemma SectionLayout(group: string, results: seq<Entry>, order: seq<Entry>)
    requires IsEnumeration(order, Elems(results))
    ensures Section(group, results, order) == "" <==> results == []
    ensures results != [] ==> StartsWith(Section(group, results, order), Header(group))
    ensures results != [] ==> EndsWith(Section(group, results, order), "\n\n")
    ensures SortedBy(SortBy(order, ByPath), ByPath)
    ensures Elems(SortBy(order, ByPath)) == Elems(results)
    ensures |SortBy(order, ByPath)| == |Elems(results)|
    ensures forall i, j :: 0 <= i < j < |SortBy(order, ByPath)| ==> SortBy(order, ByPath)[i] != SortBy(order, ByPath)[j]
  {
    ByPathPreorder();
    SortedEnumeration(order, Elems(results), ByPath);
    if results != [] {
      SectionFramed(group, results, order);
    }
  }

  /** A non-empty section opens with its header and closes with a blank line. */
  lemma SectionFramed(group: string, results: seq<Entry>, order: seq<Entry>)
    requires IsEnumeration(order, Elems(results)) && results != []
    ensures StartsWith(Section(group, results, order), Header(group))
    ensures EndsWith(Section(group, results, order), "\n\n")
  {
    var sorted := SortBy(order, ByPath);
    EnumerationEmpty(results, order);
    assert sorted != [];
    LastRowEnds(sorted);
    SectionFrame(Header(group), Rows(sorted));
  }

  lemma LastRowEnds(sorted: seq<Entry>)
    requires sorted != []
    ensures EndsWith(Rows(sorted)[|sorted| - 1], "\n")
  {
    var n := |sorted| - 1;
    RowAt(sorted, n);
    var e := sorted[n];
    var row := Row(e, Width(sorted));
    assert row == PadRight(e.path, Width(sorted)) + "\t[" + e.category + "]\n";
    assert row[|row| - 1] == '\n';
  }

  /** A stripped match has no whitespace at either end. */
  lemma RecordStripped(found: string, category: string, file: string)
    ensures var p := Record(found, category, file).path;
            p != [] ==> !IsSpace(p[0]) && !IsSpace(p[|p| - 1])
    ensures Strip(Record(found, category, file).path) == Record(found, category, file).path
  {
    StripIsTrimmedSlice(found);
    StripSolid(Strip(found));
  }

  /** So no path the report lists begins or ends with whitespace. */
  lemma ListedPathsStripped(g: Group, files: seq<SourceFile>, findall: (string, string) -> seq<string>, r: Entry)
    requires r in GroupRecords(g, files, findall, Record)
    ensures Strip(r.path) == r.path
  {
    GroupRecordsExactly(g, files, findall, Record, r);
    var i :| 0 <= i < |files| && Scanned(files[i]) && r in PatternRecords(g.patterns, files[i].content.value, files[i].name, findall, Record);
    PatternRecordsExactly(g.patterns, files[i].content.value, files[i].name, findall, Record, r);
    var j, k :| FromMatch(g.patterns, files[i].content.value, files[i].name, findall, Record, j, k, r);
    RecordStripped(findall(g.patterns[j].regex, files[i].content.value)[k], g.patterns[j].category, files[i].name);
  }

  /**
   * The sort key leaves ties: one path found under two categories of equal
   * length (as by the two GET patterns, which both match a double-quoted
   * argument) is listed in the order the set is visited in, so the two
   * iteration orders give two different sections.
   */
  lemma TieOrderMatters(group: string, a: Entry, b: Entry)
    requires a.path == b.path && a.category != b.category && |a.category| == |b.category|
    ensures IsEnumeration([a, b], Elems([a, b])) && IsEnumeration([b, a], Elems([a, b]))
    ensures Section(group, [a, b], [a, b]) != Section(group, [a, b], [b, a])
  {
    PairEnumerations(a, b);
    var w := |a.path| + 2;
    TiedSection(group, [a, b], a, b);
    TiedSection(group, [a, b], b, a);
    RowsDiffer(a, b, w);
    TieSectionsDiffer(Header(group), Row(a, w), Row(b, w));
  }

  /** Lines of two records of one path and different categories of one length differ, at one length. */
  lemma RowsDiffer(a: Entry, b: Entry, w: nat)
    requires a.path == b.path && |a.path| + 2 <= w
    requires a.category != b.category && |a.category| == |b.category|
    ensures |Row(a, w)| == |Row(b, w)| && Row(a, w) != Row(b, w)
  {
    RowLayout(a, w);
    RowLayout(b, w);
    var k :| 0 <= k < |a.category| && a.category[k] != b.category[k];
    var ta, tb := "[" + a.category + "]\n", "[" + b.category + "]\n";
    assert ta[1 + k] == a.category[k] && tb[1 + k] == b.category[k];
    assert Row(a, w)[w + 1..][1 + k] != Row(b, w)[w + 1..][1 + k];
  }

  /** The section of two tied records visited as `[a, b]`. */
  lemma TiedSection(group: string, results: seq<Entry>, a: Entry, b: Entry)
    requires results != [] && a.path == b.path
    ensures Section(group, results, [a, b]) == Header(group) + (Row(a, |a.path| + 2) + Row(b, |a.path| + 2)) + "\n"
  {
    TiedPairSorted(a, b);
    var pair := [a, b];
    assert Width(pair) == |a.path| + 2 by {
      assert Paths(pair)[0] == a.path && Paths(pair)[1] == b.path;
    }
    assert Rows(pair)[0] == Row(a, |a.path| + 2) && Rows(pair)[1] == Row(b, |a.path| + 2);
    assert Rows(SortBy(pair, ByPath)) == [Row(a, |a.path| + 2), Row(b, |a.path| + 2)];
    ConcatPair(Row(a, |a.path| + 2), Row(b, |a.path| + 2));
  }

  /** Records of one path are already in order, in either order. */
  lemma TiedPairSorted(a: Entry, b: Entry)
    requires a.path == b.path
    ensures SortBy([a, b], ByPath) == [a, b]
  {
    StrLeTotalOrder();
    assert ByPath(a, b);
    assert [a, b][..1] == [a];
    assert [a][..0] == [];
    assert SortBy([a], ByPath) == [a];
  }

  /**
   * The writer: when the output file opens, write each non-empty group's
   * section in table order (visiting each set in some order, returned in
   * `orders`), counting the lines, then the statistics block, and return
   * the count. When the file does not open nothing is written and 0 is
   * returned.
   */
  method WriteReport(table: seq<Group>, results: map<string, seq<Entry>>, processed: nat,
                     directory: string, stamp: string, canOpen: bool)
    returns (written: Option<string>, orders: seq<seq<Entry>>, totalPaths: nat)
    requires forall t :: 0 <= t < |table| ==> table[t].name in results
    ensures canOpen ==> && Enumerates(table, results, orders)
                        && totalPaths == DistinctTotal(table, results)
                        && written == Some(Sections(table, results, orders) + Stats(totalPaths, processed, directory, stamp))
    ensures !canOpen ==> written == None && totalPaths == 0
  {
    if !canOpen {
      return None, [], 0;
    }
    var sections;
    sections, orders, totalPaths := WriteSections(table, results);
    written := Some(sections + Stats(totalPaths, processed, directory, stamp));
  }

  /** The writer's loop over the groups in table order. */
  method WriteSections(table: seq<Group>, results: map<string, seq<Entry>>)
    returns (out: string, orders: seq<seq<Entry>>, totalPaths: nat)
    requires forall t :: 0 <= t < |table| ==> table[t].name in results
    ensures Enumerates(table, results, orders)
    ensures totalPaths == DistinctTotal(table, results)
    ensures out == Sections(table, results, orders)
  {
    out := "";
    orders := [];
    totalPaths := 0;
    for t := 0 to |table|
      invariant Enumerates(table[..t], results, orders)
      invariant out == Sections(table[..t], results, orders)
      invariant totalPaths == DistinctTotal(table[..t], results)
    {
      var section, order, count := WriteSection(table[t].name, results[table[t].name]);
      SectionsStep(table, results, orders, order, t);
      out := out + section;
      orders := orders + [order];
      totalPaths := totalPaths + count;
    }
    assert table[..|table|] == table;
  }

  /** The writer's loop invariants carried over one group. */
  lemma SectionsStep(table: seq<Group>, results: map<string, seq<Entry>>, orders: seq<seq<Entry>>, order: seq<Entry>, t: nat)
    requires t < |table| && Enumerates(table[..t], results, orders)
    requires table[t].name in results && IsEnumeration(order, Elems(results[table[t].name]))
    ensures Enumerates(table[..t + 1], results, orders + [order])
    ensures Sections(table[..t + 1], results, orders + [order])
         == Sections(table[..t], results, orders) + Section(table[t].name, results[table[t].name], order)
    ensures DistinctTotal(table[..t + 1], results) == DistinctTotal(table[..t], results) + |Elems(results[table[t].name])|
  {
    assert table[..t + 1][..t] == table[..t];
    assert (orders + [order])[..t] == orders;
  }

  /**
   * One turn of the writer's loop: nothing for an empty list; otherwise the
   * header, the sorted distinct records, a blank line; `count` is the
   * number of record lines written.
   */
  method WriteSection(group: string, rs: seq<Entry>) returns (text: string, order: seq<Entry>, count: nat)
    ensures IsEnumeration(order, Elems(rs))
    ensures text == Section(group, rs, order)
    ensures count == |Elems(rs)|
  {
    text := "";
    order := [];
    count := 0;
    if rs != [] {
      order := Enumerate(Elems(rs));
      var sorted := SortBy(order, ByPath);
      var lines := WriteRows(sorted);
      text := Header(group) + lines + "\n";
      count := |sorted|;
      EnumerationFacts(order, Elems(rs));
      assert |sorted| == |multiset(sorted)| == |multiset(order)| == |order|;
    } else {
      ElemsEmpty(rs);
    }
  }

  /** The record lines of a sorted section, one `f.write` per record, padded to the section's width. */
  method WriteRows(sorted: seq<Entry>) returns (lines: string)
    ensures lines == Concat(Rows(sorted))
  {
    lines := "";
    var width := Width(sorted);
    for i := 0 to |sorted|
      invariant lines == Concat(Rows(sorted)[..i])
    {
      RowsStep(sorted, i);
      lines := lines + Row(sorted[i], width);
    }
    assert Rows(sorted)[..|sorted|] == Rows(sorted);
  }

  lemma RowsStep(sorted: seq<Entry>, i: nat)
    requires i < |sorted|
    ensures Concat(Rows(sorted)[..i + 1]) == Concat(Rows(sorted)[..i]) + Row(sorted[i], Width(sorted))
  {
    var rows := Rows(sorted);
    assert rows[..i + 1][..i] == rows[..i];
    assert rows[i] == Row(sorted[i], Width(sorted));
  }

  /**
   * `final_path_analysis`: the scan over `files` with the table above, then
   * the writer. `directory` and `stamp` are the directory walked and the
   * formatted local time.
   */
  method FinalPathAnalysis(files: seq<SourceFile>, findall: (string, string) -> seq<string>,
                           directory: string, stamp: string, canOpen: bool)
    returns (written: Option<string>, orders: seq<seq<Entry>>, totalPaths: nat)
    ensures canOpen ==>
              var results := FinalResults(files, findall);
              && Enumerates(FinalTable, results, orders)
              && totalPaths == DistinctTotal(FinalTable, results)
              && written == Some(Sections(FinalTable, results, orders) + Stats(totalPaths, CountScanned(files), directory, stamp))
    ensures !canOpen ==> written == None && totalPaths == 0
  {
    FinalTableNames();
    var results, _, processed := Collect(FinalTable, files, findall, Record);
    MatchedByGroup(FinalTable, files, findall, Record, results);
    written, orders, totalPaths := WriteReport(FinalTable, results, processed, directory, stamp, canOpen);
  }
}
