/**
 * re-api-dir.py: scan the ".js" files of one directory with a pattern table
 * whose every group uses a single category, then write one section per
 * group that matched: its header, one line per distinct (path, category)
 * record sorted by path, the path column padded to the longest path, and
 * a blank line.
 */
module ApiDir {
  import opened Options
  import opened Text
  import opened Order
  import opened Scan
  import opened Report

  /** The pattern table of re-api-dir.py, in declaration order. */
  const ApiDirTable: seq<Group> := [
    Group("PagePath Matches", [
      Pattern("pagePath:\\s*\"(.*?)\"", "pagePath_double_quotes"),
      Pattern("pagePath:\\s*'(.*?)'", "pagePath_double_quotes")]),
    Group("Path Matches", [
      Pattern("path:\\s*\"(.*?)\"", "path_double_quotes"),
      Pattern("path:\\s*'(.*?)'", "path_double_quotes"),
      Pattern("url:\\s*\"([^\"]+)\"", "path_double_quotes"),
      Pattern("url: \"([^\"]+)", "path_double_quotes")]),
    Group("GET Matches", [
      Pattern("get\\([^()]*?\"([^\"]*?)\"[^()]*?\\)", "get_double_quotes"),
      Pattern("get\\([^()]*?['\\\"]([^'\\\"]*?)['\\\"][^()]*?\\)", "get_double_quotes")]),
    Group("POST Matches", [
      Pattern("post\\([^()]*?\"([^\"]*?)\"[^()]*?\\)", "post_double_quotes"),
      Pattern("POST\\([^()]*?['\\\"]([^'\\\"]*?)['\\\"][^()]*?\\)", "post_double_quotes")])
  ]

  /** The record appended per match: the match as found (not stripped) and the category. */
  function Record(found: string, category: string, file: string): Entry {
    Entry(found, category)
  }

  /** One written line: the path left-justified to `width`, a tab, the category. */
  function Row(e: Entry, width: nat): (r: string)
    ensures StartsWith(r, e.path) && EndsWith(r, "\t" + e.category + "\n")
  {
    PadRight(e.path, width) + "\t" + e.category + "\n"
  }

  /** The lines of a sorted section, all padded to its longest path. */
  function Rows(sorted: seq<Entry>): (rows: seq<string>)
    ensures |rows| == |sorted|
  {
    var width := MaxLen(Paths(sorted));
    seq(|sorted|, i requires 0 <= i < |sorted| => Row(sorted[i], width))
  }

  /** A group's section, given the order `order` in which `set(results)` is visited. */
  function Section(group: string, results: seq<Entry>, order: seq<Entry>): (r: string)
    ensures r == "" <==> results == []
  {
    if results == [] then "" else Header(group) + Concat(Rows(SortBy(order, ByPath))) + "\n"
  }

  /** The whole output file: the sections of the groups in table order. */
  function Document(table: seq<Group>, results: map<string, seq<Entry>>, orders: seq<seq<Entry>>): (r: string)
    requires |orders| == |table|
    requires forall t :: 0 <= t < |table| ==> table[t].name in results
    ensures r == "" <==> forall t :: 0 <= t < |table| ==> results[table[t].name] == []
  {
    if table == [] then ""
    else
      var n := |table| - 1;
      NoneMatchedStep(table, table[..n], results);
      Document(table[..n], results, orders[..n]) + Section(table[n].name, results[table[n].name], orders[n])
  }

  /**
   * A line read back: the path, then spaces up to the column width, the tab
   * at index `width`, then the category and the line end.
   */
  lemma RowLayout(e: Entry, width: nat)
    requires |e.path| <= width
    ensures |Row(e, width)| == width + |e.category| + 2
    ensures Row(e, width)[..|e.path|] == e.path
    ensures forall k :: |e.path| <= k < width ==> Row(e, width)[k] == ' '
    ensures Row(e, width)[width] == '\t'
    ensures Row(e, width)[width + 1..] == e.category + "\n"
  {
    var p := PadRight(e.path, width);
    assert Row(e, width) == p + ("\t" + e.category + "\n");
  }

  /**
   * The lines of a sorted section line up: each starts with its record's
   * path, has its tab in the column just after the longest path, and ends
   * with the category; and some path fills the column.
   */
  lemma RowsAligned(sorted: seq<Entry>)
    ensures forall i :: 0 <= i < |sorted| ==> Lined(Rows(sorted)[i], sorted[i], MaxLen(Paths(sorted)))
    ensures sorted != [] ==> exists i :: 0 <= i < |sorted| && |sorted[i].path| == MaxLen(Paths(sorted))
  {
    forall i | 0 <= i < |sorted| {
      RowAligned(sorted, i);
    }
    WidestPath(sorted);
  }

  /** Some path of a non-empty section is as long as the column. */
  lemma WidestPath(sorted: seq<Entry>)
    ensures sorted != [] ==> exists i :: 0 <= i < |sorted| && |sorted[i].path| == MaxLen(Paths(sorted))
  {
    if sorted != [] {
      var i :| 0 <= i < |Paths(sorted)| && |Paths(sorted)[i]| == MaxLen(Paths(sorted));
      assert |Paths(sorted)| == |sorted|;
      assert |sorted[i].path| == MaxLen(Paths(sorted));
    }
  }

  /** `row` is the path of `e`, spaces up to `width`, the tab at `width`, then the category. */
  predicate Lined(row: string, e: Entry, width: nat) {
    && |e.path| <= width < |row|
    && row[..|e.path|] == e.path
    && (forall k :: |e.path| <= k < width ==> row[k] == ' ')
    && row[width] == '\t'
    && row[width + 1..] == e.category + "\n"
  }

  /** Line `i` of a section: its path, the tab just after the longest path, its category. */
  lemma RowAligned(sorted: seq<Entry>, i: nat)
    requires i < |sorted|
    ensures Lined(Rows(sorted)[i], sorted[i], MaxLen(Paths(sorted)))
  {
    assert Paths(sorted)[i] == sorted[i].path;
    RowLayout(sorted[i], MaxLen(Paths(sorted)));
  }

  /**
   * A section, whatever the set's iteration order: empty exactly when the
   * group matched nothing; otherwise its lines are those of the distinct
   * records, each once, sorted by path.
   */
  lemma SectionLayout(group: string, results: seq<Entry>, order: seq<Entry>)
    requires IsEnumeration(order, Elems(results))
    ensures Section(group, results, order) == "" <==> results == []
    ensures results != [] ==> StartsWith(Section(group, results, order), Header(group))
    ensures results != [] ==> EndsWith(Section(group, results, order), "\n\n")
    ensures SortedBy(SortBy(order, ByPath), ByPath)
    ensures Elems(SortBy(order, ByPath)) == Elems(results)
    ensures |SortBy(order, ByPath)| == |Elems(results)|
    ensures forall i, j :: 0 <= i < j < |SortBy(order, ByPath)| ==> SortBy(order, ByPath)[i] != SortBy(order, ByPath)[j]
  {
    ByPathPreorder();
    SortedEnumeration(order, Elems(results), ByPath);
    if results != [] {
      SectionFramed(group, results, order);
    }
  }

  /** A non-empty section opens with its header and closes with a blank line. */
  lemma SectionFramed(group: string, results: seq<Entry>, order: seq<Entry>)
    requires IsEnumeration(order, Elems(results)) && results != []
    ensures StartsWith(Section(group, results, order), Header(group))
    ensures EndsWith(Section(group, results, order), "\n\n")
  {
    var sorted := SortBy(order, ByPath);
    EnumerationEmpty(results, order);
    assert sorted != [];
    var n := |sorted| - 1;
    assert Rows(sorted)[n] == Row(sorted[n], MaxLen(Paths(sorted)));
    assert Paths(sorted)[n] == sorted[n].path;
    RowLayout(sorted[n], MaxLen(Paths(sorted)));
    SectionFrame(Header(group), Rows(sorted));
  }

  /** Every pattern of the group carries the category `c`. */
  predicate OneCategory(g: Group, c: string) {
    forall j :: 0 <= j < |g.patterns| ==> g.patterns[j].category == c
  }

  /** So every record of such a group carries `c`. */
  lemma OneCategoryRecords(g: Group, c: string, files: seq<SourceFile>, findall: (string, string) -> seq<string>, r: Entry)
    requires OneCategory(g, c)
    requires r in GroupRecords(g, files, findall, Record)
    ensures r.category == c
  {
    GroupRecordsExactly(g, files, findall, Record, r);
    var i :| 0 <= i < |files| && Scanned(files[i]) && r in PatternRecords(g.patterns, files[i].content.value, files[i].name, findall, Record);
    PatternRecordsExactly(g.patterns, files[i].content.value, files[i].name, findall, Record, r);
  }

  /** Every group of the table has patterns, all of its first pattern's category. */
  predicate SingleCategoryTable(table: seq<Group>) {
    forall t :: 0 <= t < |table| ==> |table[t].patterns| > 0 && OneCategory(table[t], table[t].patterns[0].category)
  }

  /** The table of re-api-dir.py is such a table, with distinct group names. */
  lemma ApiDirTableShape()
    ensures SingleCategoryTable(ApiDirTable) && DistinctNames(ApiDirTable)
  {
    ApiDirTableNames();
    ApiDirTableCategories();
  }

  lemma ApiDirTableNames()
    ensures DistinctNames(ApiDirTable)
  {
    assert ApiDirTable[0].name[..2] == "Pa" && |ApiDirTable[0].name| == 16;
    assert ApiDirTable[1].name[..2] == "Pa" && |ApiDirTable[1].name| == 12;
    assert ApiDirTable[2].name[..2] == "GE";
    assert ApiDirTable[3].name[..2] == "PO";
  }

  lemma ApiDirTableCategories()
    ensures SingleCategoryTable(ApiDirTable)
  {
  }

  /** No two different records of the list are tied under the key. */
  ghost predicate TieFree(rs: seq<Entry>) {
    forall x, y :: x in Elems(rs) && y in Elems(rs) && ByPath(x, y) && ByPath(y, x) ==> x == y
  }

  /** No two different records in a list of one category share a path. */
  lemma NoTies(rs: seq<Entry>, c: string)
    requires forall r :: r in rs ==> r.category == c
    ensures TieFree(rs)
  {
    StrLeTotalOrder();
  }

  /** When no group's records tie under the key, the document does not depend on the iteration orders. */
  lemma {:induction false} DocumentIgnoresOrder(table: seq<Group>, results: map<string, seq<Entry>>, o1: seq<seq<Entry>>, o2: seq<seq<Entry>>)
    requires Enumerates(table, results, o1) && Enumerates(table, results, o2)
    requires forall t :: 0 <= t < |table| ==> TieFree(results[table[t].name])
    ensures Document(table, results, o1) == Document(table, results, o2)
  {
    if table != [] {
      var n := |table| - 1;
      assert Enumerates(table[..n], results, o1[..n]);
      assert Enumerates(table[..n], results, o2[..n]);
      DocumentIgnoresOrder(table[..n], results, o1[..n], o2[..n]);
      ByPathPreorder();
      SortIgnoresOrder(o1[n], o2[n], Elems(results[table[n].name]), ByPath);
    }
  }

  /** A table whose every group uses one category yields a tie-free list per group. */
  lemma OneCategoryTieFree(table: seq<Group>, files: seq<SourceFile>, findall: (string, string) -> seq<string>)
    requires DistinctNames(table) && SingleCategoryTable(table)
    ensures forall t :: 0 <= t < |table| ==> TieFree(Matched(table, files, findall, Record)[table[t].name])
  {
    var results := Matched(table, files, findall, Record);
    forall t | 0 <= t < |table| ensures TieFree(results[table[t].name]) {
      var c := table[t].patterns[0].category;
      forall r: Entry | r in results[table[t].name] ensures r.category == c {
        OneCategoryRecords(table[t], c, files, findall, r);
      }
      NoTies(results[table[t].name], c);
    }
  }

  /**
   * Because every group of the table uses one category, the report of
   * re-api-dir.py is the same whatever order Python visits the sets in.
   */
  lemma ReportIgnoresOrder(files: seq<SourceFile>, findall: (string, string) -> seq<string>, o1: seq<seq<Entry>>, o2: seq<seq<Entry>>)
    requires Enumerates(ApiDirTable, Matched(ApiDirTable, files, findall, Record), o1)
    requires Enumerates(ApiDirTable, Matched(ApiDirTable, files, findall, Record), o2)
    ensures Document(ApiDirTable, Matched(ApiDirTable, files, findall, Record), o1)
         == Document(ApiDirTable, Matched(ApiDirTable, files, findall, Record), o2)
  {
    ApiDirTableShape();
    SingleCategoryIgnoresOrder(ApiDirTable, files, findall, o1, o2);
  }

  lemma SingleCategoryIgnoresOrder(table: seq<Group>, files: seq<SourceFile>, findall: (string, string) -> seq<string>,
                                   o1: seq<seq<Entry>>, o2: seq<seq<Entry>>)
    requires DistinctNames(table) && SingleCategoryTable(table)
    requires Enumerates(table, Matched(table, files, findall, Record), o1)
    requires Enumerates(table, Matched(table, files, findall, Record), o2)
    ensures Document(table, Matched(table, files, findall, Record), o1) == Document(table, Matched(table, files, findall, Record), o2)
  {
    OneCategoryTieFree(table, files, findall);
    DocumentIgnoresOrder(table, Matched(table, files, findall, Record), o1, o2);
  }

  /**
   * The writer: when the output file opens, for each group in table order
   * with a non-empty list, write the header, the distinct records sorted by
   * path (visiting the set in some order, returned in `orders`) and a blank
   * line. When the file does not open nothing is written.
   */
  method WriteReport(table: seq<Group>, results: map<string, seq<Entry>>, canOpen: bool)
    returns (written: Option<string>, orders: seq<seq<Entry>>)
    requires forall t :: 0 <= t < |table| ==> table[t].name in results
    ensures canOpen ==> Enumerates(table, results, orders) && written == Some(Document(table, results, orders))
    ensures !canOpen ==> written == None
  {
    if !canOpen {
      return None, [];
    }
    var out := "";
    orders := [];
    for t := 0 to |table|
      invariant Enumerates(table[..t], results, orders)
      invariant out == Document(table[..t], results, orders)
    {
      var section, order := WriteSection(table[t].name, results[table[t].name]);
      DocumentStep(table, results, orders, order, t);
      out := out + section;
      orders := orders + [order];
    }
    assert table[..|table|] == table;
    written := Some(out);
  }

  /** The writer's loop invariant carried over one group. */
  lemma DocumentStep(table: seq<Group>, results: map<string, seq<Entry>>, orders: seq<seq<Entry>>, order: seq<Entry>, t: nat)
    requires t < |table| && Enumerates(table[..t], results, orders)
    requires table[t].name in results && IsEnumeration(order, Elems(results[table[t].name]))
    ensures Enumerates(table[..t + 1], results, orders + [order])
    ensures Document(table[..t + 1], results, orders + [order])
         == Document(table[..t], results, orders) + Section(table[t].name, results[table[t].name], order)
  {
    assert table[..t + 1][..t] == table[..t];
    assert (orders + [order])[..t] == orders;
  }

  /**
   * One turn of the writer's loop: nothing for an empty list; otherwise the
   * header, the sorted distinct records padded to the longest path, a blank line.
   */
  method WriteSection(group: string, rs: seq<Entry>) returns (text: string, order: seq<Entry>)
    ensures IsEnumeration(order, Elems(rs))
    ensures text == Section(group, rs, order)
  {
    text := "";
    order := [];
    if rs != [] {
      text := Header(group);
      order := Enumerate(Elems(rs));
      var sorted := SortBy(order, ByPath);
      var width := MaxLen(Paths(sorted));
      for i := 0 to |sorted|
        invariant text == Header(group) + Concat(Rows(sorted)[..i])
      {
        ConcatStep(Header(group), Rows(sorted), i);
        text := text + Row(sorted[i], width);
      }
      assert Rows(sorted)[..|sorted|] == Rows(sorted);
      text := text + "\n";
    } else {
      ElemsEmpty(rs);
    }
  }

  /**
   * The whole script: the scan, then the writer, on the table of
   * re-api-dir.py.
   */
  method ScanAndReport(files: seq<SourceFile>, findall: (string, string) -> seq<string>, canOpen: bool)
    returns (written: Option<string>, orders: seq<seq<Entry>>)
    ensures canOpen ==> && Enumerates(ApiDirTable, Matched(ApiDirTable, files, findall, Record), orders)
                        && written == Some(Document(ApiDirTable, Matched(ApiDirTable, files, findall, Record), orders))
    ensures !canOpen ==> written == None
  {
    assert DistinctNames(ApiDirTable);
    var results, _, _ := Collect(ApiDirTable, files, findall, Record);
    MatchedByGroup(ApiDirTable, files, findall, Record, results);
    written, orders := WriteReport(ApiDirTable, results, canOpen);
  }
}
