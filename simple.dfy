/**
 * re-simple.py: scan the ".js" files of one directory with a
 * case-insensitive pattern table, keep each match with its category and
 * the name of the file it came from, then write one section per group
 * that matched: its header, one line per distinct record sorted by path
 * and then by file name, with the path and category columns padded to
 * their longest entries, and a blank line.
 */
module Simple {
  import opened Options
  import opened Text
  import opened Order
  import opened Scan
  import opened Report

  /** A record of re-simple.py: the match as found, its category, and the bare file name. */
  datatype Located = Located(path: string, category: string, file: string)

  /** The pattern table of re-simple.py, in declaration order. */
  const SimpleTable: seq<Group> := [
    Group("PagePath Matches", [
      Pattern("(?i)pagePath:\\s*[\\\"'](.*?)[\\\"']", "pagePath")]),
    Group("Path Matches", [
      Pattern("(?i)path:\\s*[\\\"'](.*?)[\\\"']", "path"),
      Pattern("(?i)url:\\s*[\\\"']([^\\\"']+)[\\\"']", "url"),
      Pattern("(?i)name:\\s*[\\\"']([^\\\"']+)[\\\"']", "name")]),
    Group("GET Matches", [
      Pattern("(?i)get\\([^()]*?['\\\"]([^'\\\"]*?)['\\\"][^()]*?\\)", ""),
      Pattern("(?i)url:['\\\"]([^'\\\"]+)['\\\"],\\s*method:\\s*['\\\"]get['\\\"]", "")]),
    Group("POST Matches", [
      Pattern("(?i)post\\([^()]*?['\\\"]([^'\\\"]*?)['\\\"][^()]*?\\)", ""),
      Pattern("(?i)url:['\\\"]([^'\\\"]+)['\\\"],\\s*method:\\s*['\\\"]post['\\\"]", "")]),
    Group("Object", [
      Pattern("\\b[a-zA-Z][a-zA-Z0-9]*\\b:\\[\\{\\s*\\b[a-zA-Z][a-zA-Z0-9]*\\b:\"\"", "")])
  ]

  /** The record appended per match: the match as found (not stripped), the category, the file name. */
  function Record(found: string, category: string, file: string): Located {
    Located(found, category, file)
  }

  /** `key=lambda x: (x[0], x[2])`: by path, then by file name. */
  predicate ByPathThenFile(a: Located, b: Located) {
    StrLt(a.path, b.path) || (a.path == b.path && StrLe(a.file, b.file))
  }

  lemma ByPathThenFilePreorder()
    ensures TotalPreorder(ByPathThenFile)
  {
    StrLeTotalOrder();
    forall a, b, c: Located | ByPathThenFile(a, b) && ByPathThenFile(b, c) ensures ByPathThenFile(a, c) {
      if StrLt(a.path, b.path) && StrLt(b.path, c.path) {
        StrLtTransitive(a.path, b.path, c.path);
      }
    }
    forall a, b: Located ensures ByPathThenFile(a, b) || ByPathThenFile(b, a) {
      if a.path != b.path {
        StrLtTotal(a.path, b.path);
      }
    }
  }

  function PathColumn(rs: seq<Located>): (ps: seq<string>)
    ensures |ps| == |rs| && forall i :: 0 <= i < |rs| ==> ps[i] == rs[i].path
  {
    seq(|rs|, i requires 0 <= i < |rs| => rs[i].path)
  }

  function CategoryColumn(rs: seq<Located>): (cs: seq<string>)
    ensures |cs| == |rs| && forall i :: 0 <= i < |rs| ==> cs[i] == rs[i].category
  {
    seq(|rs|, i requires 0 <= i < |rs| => rs[i].category)
  }

  /** One written line: path and category left-justified to their widths, tab-separated, then the file name. */
  function Row(r: Located, pathWidth: nat, categoryWidth: nat): (row: string)
    ensures StartsWith(row, r.path) && EndsWith(row, "\t" + r.file + "\n")
  {
    PadRight(r.path, pathWidth) + "\t" + PadRight(r.category, categoryWidth) + "\t" + r.file + "\n"
  }

  /** The lines of a sorted section, padded to its longest path and longest category. */
  function Rows(sorted: seq<Located>): (rows: seq<string>)
    ensures |rows| == |sorted|
  {
    var pathWidth := MaxLen(PathColumn(sorted));
    var categoryWidth := MaxLen(CategoryColumn(sorted));
    seq(|sorted|, i requires 0 <= i < |sorted| => Row(sorted[i], pathWidth, categoryWidth))
  }

  /** A group's section, given the order `order` in which `set(results)` is visited. */
  function Section(group: string, results: seq<Located>, order: seq<Located>): (r: string)
    ensures r == "" <==> results == []
  {
    if results == [] then "" else Header(group) + Concat(Rows(SortBy(order, ByPathThenFile))) + "\n"
  }

  /** The whole output file: the sections of the groups in table order. */
  function Document(table: seq<Group>, results: map<string, seq<Located>>, orders: seq<seq<Located>>): (r: string)
    requires |orders| == |table|
    requires forall t :: 0 <= t < |table| ==> table[t].name in results
    ensures r == "" <==> forall t :: 0 <= t < |table| ==> results[table[t].name] == []
  {
    if table == [] then ""
    else
      var n := |table| - 1;
      NoneMatchedStep(table, table[..n], results);
      Document(table[..n], results, orders[..n]) + Section(table[n].name, results[table[n].name], orders[n])
  }

  /**
   * A line read back: the path padded to `pathWidth`, a tab at index
   * `pathWidth`, the category padded to `categoryWidth`, a second tab right
   * after it, then the file name and the line end.
   */
  lemma RowLayout(r: Located, pathWidth: nat, categoryWidth: nat)
    requires |r.path| <= pathWidth && |r.category| <= categoryWidth
    ensures |Row(r, pathWidth, categoryWidth)| == pathWidth + categoryWidth + |r.file| + 3
    ensures Row(r, pathWidth, categoryWidth)[..|r.path|] == r.path
    ensures forall k :: |r.path| <= k < pathWidth ==> Row(r, pathWidth, categoryWidth)[k] == ' '
    ensures Row(r, pathWidth, categoryWidth)[pathWidth] == '\t'
    ensures Row(r, pathWidth, categoryWidth)[pathWidth + 1..pathWidth + 1 + |r.category|] == r.category
    ensures forall k :: pathWidth + 1 + |r.category| <= k < pathWidth + 1 + categoryWidth ==> Row(r, pathWidth, categoryWidth)[k] == ' '
    ensures Row(r, pathWidth, categoryWidth)[pathWidth + 1 + categoryWidth] == '\t'
    ensures Row(r, pathWidth, categoryWidth)[pathWidth + categoryWidth + 2..] == r.file + "\n"
  {
    var p, c := PadRight(r.path, pathWidth), PadRight(r.category, categoryWidth);
    Columns(p, c, r.file);
    var row := Row(r, pathWidth, categoryWidth);
    assert row[..|r.path|] == row[..|p|][..|r.path|];
    assert row[pathWidth + 1..pathWidth + 1 + |r.category|] == row[|p| + 1..|p| + 1 + |c|][..|r.category|];
    RowPadding(r, pathWidth, categoryWidth);
  }

  /** The gaps after the path and after the category are filled with spaces. */
  lemma RowPadding(r: Located, pathWidth: nat, categoryWidth: nat)
    requires |r.path| <= pathWidth && |r.category| <= categoryWidth
    ensures forall k :: |r.path| <= k < pathWidth ==> Row(r, pathWidth, categoryWidth)[k] == ' '
    ensures forall k :: pathWidth + 1 + |r.category| <= k < pathWidth + 1 + categoryWidth ==> Row(r, pathWidth, categoryWidth)[k] == ' '
  {
    var p, c := PadRight(r.path, pathWidth), PadRight(r.category, categoryWidth);
    Columns(p, c, r.file);
    var row := Row(r, pathWidth, categoryWidth);
    forall k | |r.path| <= k < pathWidth ensures row[k] == ' ' {
      assert row[k] == row[..|p|][k];
    }
    forall k | pathWidth + 1 + |r.category| <= k < pathWidth + 1 + categoryWidth ensures row[k] == ' ' {
      assert row[k] == row[|p| + 1..|p| + 1 + |c|][k - pathWidth - 1];
    }
  }

  /** Where the parts of a line of two tab-separated columns and a last field lie. */
  lemma Columns(p: string, c: string, f: string)
    ensures var row := p + "\t" + c + "\t" + f + "\n";
            && |row| == |p| + |c| + |f| + 3
            && row[..|p|] == p && row[|p|] == '\t'
            && row[|p| + 1..|p| + 1 + |c|] == c && row[|p| + 1 + |c|] == '\t'
            && row[|p| + |c| + 2..] == f + "\n"
  {
    var row := p + "\t" + c + "\t" + f + "\n";
    var rest := "\t" + c + "\t" + f + "\n";
    assert row == p + rest;
    assert row[|p| + 1..|p| + 1 + |c|] == rest[1..1 + |c|];
    assert row[|p| + |c| + 2..] == rest[|c| + 2..];
  }

  /** `row` is `r` laid out in columns of widths `w` and `v`, as `RowLayout` reads it back. */
  predicate Fits(row: string, r: Located, w: nat, v: nat) {
    && |r.path| <= w && |r.category| <= v && |row| == w + v + |r.file| + 3
    && row[..|r.path|] == r.path
    && (forall k :: |r.path| <= k < w ==> row[k] == ' ')
    && row[w] == '\t'
    && row[w + 1..w + 1 + |r.category|] == r.category
    && (forall k :: w + 1 + |r.category| <= k < w + 1 + v ==> row[k] == ' ')
    && row[w + 1 + v] == '\t'
    && row[w + v + 2..] == r.file + "\n"
  }

  /**
   * The lines of a sorted section line up in two columns: each starts with
   * its path, has a tab just after the longest path, its category next, a
   * tab just after the longest category, and its file name last.
   */
  lemma RowsAligned(sorted: seq<Located>)
    ensures forall i :: 0 <= i < |sorted| ==> Fits(Rows(sorted)[i], sorted[i], MaxLen(PathColumn(sorted)), MaxLen(CategoryColumn(sorted)))
  {
    var w, v := MaxLen(PathColumn(sorted)), MaxLen(CategoryColumn(sorted));
    forall i | 0 <= i < |sorted| ensures Fits(Rows(sorted)[i], sorted[i], w, v) {
      RowAt(sorted, i);
      RowLayout(sorted[i], w, v);
    }
  }

  lemma RowAt(sorted: seq<Located>, i: nat)
    requires i < |sorted|
    ensures Rows(sorted)[i] == Row(sorted[i], MaxLen(PathColumn(sorted)), MaxLen(CategoryColumn(sorted)))
    ensures |sorted[i].path| <= MaxLen(PathColumn(sorted)) && |sorted[i].category| <= MaxLen(CategoryColumn(sorted))
  {
    assert PathColumn(sorted)[i] == sorted[i].path;
    assert CategoryColumn(sorted)[i] == sorted[i].category;
  }

  /**
   * A section, whatever the set's iteration order: empty exactly when the
   * group matched nothing; otherwise its lines are those of the distinct
   * records, each once, sorted by path and then by file name.
   */
  lemma SectionLayout(group: string, results: seq<Located>, order: seq<Located>)
    requires IsEnumeration(order, Elems(results))
    ensures Section(group, results, order) == "" <==> results == []
    ensures results != [] ==> StartsWith(Section(group, results, order), Header(group))
    ensures results != [] ==> EndsWith(Section(group, results, order), "\n\n")
    ensures SortedBy(SortBy(order, ByPathThenFile), ByPathThenFile)
    ensures Elems(SortBy(order, ByPathThenFile)) == Elems(results)
    ensures |SortBy(order, ByPathThenFile)| == |Elems(results)|
    ensures forall i, j :: 0 <= i < j < |SortBy(order, ByPathThenFile)| ==>
              SortBy(order, ByPathThenFile)[i] != SortBy(order, ByPathThenFile)[j]
  {
    ByPathThenFilePreorder();
    SortedEnumeration(order, Elems(results), ByPathThenFile);
    if results != [] {
      SectionFramed(group, results, order);
    }
  }

  /** A non-empty section opens with its header and closes with a blank line. */
  lemma SectionFramed(group: string, results: seq<Located>, order: seq<Located>)
    requires IsEnumeration(order, Elems(results)) && results != []
    ensures StartsWith(Section(group, results, order), Header(group))
    ensures EndsWith(Section(group, results, order), "\n\n")
  {
    var sorted := SortBy(order, ByPathThenFile);
    EnumerationEmpty(results, order);
    assert sorted != [];
    var n := |sorted| - 1;
    RowAt(sorted, n);
    RowLayout(sorted[n], MaxLen(PathColumn(sorted)), MaxLen(CategoryColumn(sorted)));
    SectionFrame(Header(group), Rows(sorted));
  }

  /**
   * The sort key leaves ties: when one file yields the same path under two
   * categories of equal length (as the "path" and "name" patterns can), the
   * two iteration orders of the set give two different sections.
   */
  lemma TieOrderMatters(group: string, a: Located, b: Located)
    requires a.path == b.path && a.file == b.file
    requires a.category != b.category && |a.category| == |b.category|
    ensures IsEnumeration([a, b], Elems([a, b])) && IsEnumeration([b, a], Elems([a, b]))
    ensures Section(group, [a, b], [a, b]) != Section(group, [a, b], [b, a])
  {
    PairEnumerations(a, b);
    var w, v := |a.path|, |a.category|;
    TiedSection(group, [a, b], a, b);
    TiedSection(group, [a, b], b, a);
    RowsDiffer(a, b, w, v);
    TieSectionsDiffer(Header(group), Row(a, w, v), Row(b, w, v));
  }

  /** Lines of two records of one path and different categories of one length differ, at one length. */
  lemma RowsDiffer(a: Located, b: Located, w: nat, v: nat)
    requires a.path == b.path && a.file == b.file && |a.path| <= w
    requires a.category != b.category && |a.category| == |b.category| <= v
    ensures |Row(a, w, v)| == |Row(b, w, v)| && Row(a, w, v) != Row(b, w, v)
  {
    RowLayout(a, w, v);
    RowLayout(b, w, v);
    assert Row(a, w, v)[w + 1..w + 1 + |a.category|] != Row(b, w, v)[w + 1..w + 1 + |b.category|];
  }

  /** The section of two tied records visited as `[a, b]`. */
  lemma TiedSection(group: string, results: seq<Located>, a: Located, b: Located)
    requires results != []
    requires a.path == b.path && a.file == b.file && |a.category| == |b.category|
    ensures Section(group, results, [a, b])
         == Header(group) + (Row(a, |a.path|, |a.category|) + Row(b, |a.path|, |a.category|)) + "\n"
  {
    TiedRows(a, b);
    ConcatPair(Row(a, |a.path|, |a.category|), Row(b, |a.path|, |a.category|));
  }

  /** Two tied records stay in the order they are visited in, each padded to the common widths. */
  lemma TiedRows(a: Located, b: Located)
    requires a.path == b.path && a.file == b.file && |a.category| == |b.category|
    ensures Rows(SortBy([a, b], ByPathThenFile)) == [Row(a, |a.path|, |a.category|), Row(b, |a.path|, |a.category|)]
  {
    TiedPairSorted(a, b);
    var pair := [a, b];
    var w, v := MaxLen(PathColumn(pair)), MaxLen(CategoryColumn(pair));
    assert w == |a.path| by {
      assert PathColumn(pair)[0] == a.path && PathColumn(pair)[1] == b.path;
    }
    assert v == |a.category| by {
      assert CategoryColumn(pair)[0] == a.category && CategoryColumn(pair)[1] == b.category;
    }
    assert Rows(pair)[0] == Row(a, w, v) && Rows(pair)[1] == Row(b, w, v);
  }

  /** Records with one path and one file name are already in order, in either order. */
  lemma TiedPairSorted(a: Located, b: Located)
    requires a.path == b.path && a.file == b.file
    ensures SortBy([a, b], ByPathThenFile) == [a, b]
  {
    StrLeTotalOrder();
    assert ByPathThenFile(a, b);
    assert [a, b][..1] == [a];
    assert [a][..0] == [];
    assert SortBy([a], ByPathThenFile) == [a];
  }

  /**
   * The writer: when the output file opens, for each group in table order
   * with a non-empty list, write the header, the distinct records sorted by
   * path and file name (visiting the set in some order, returned in
   * `orders`) and a blank line. When the file does not open nothing is written.
   */
  method WriteReport(table: seq<Group>, results: map<string, seq<Located>>, canOpen: bool)
    returns (written: Option<string>, orders: seq<seq<Located>>)
    requires forall t :: 0 <= t < |table| ==> table[t].name in results
    ensures canOpen ==> Enumerates(table, results, orders) && written == Some(Document(table, results, orders))
    ensures !canOpen ==> written == None
  {
    if !canOpen {
      return None, [];
    }
    var out := "";
    orders := [];
    for t := 0 to |table|
      invariant Enumerates(table[..t], results, orders)
      invariant out == Document(table[..t], results, orders)
    {
      var section, order := WriteSection(table[t].name, results[table[t].name]);
      DocumentStep(table, results, orders, order, t);
      out := out + section;
      orders := orders + [order];
    }
    assert table[..|table|] == table;
    written := Some(out);
  }

  /** The writer's loop invariant carried over one group. */
  lemma DocumentStep(table: seq<Group>, results: map<string, seq<Located>>, orders: seq<seq<Located>>, order: seq<Located>, t: nat)
    requires t < |table| && Enumerates(table[..t], results, orders)
    requires table[t].name in results && IsEnumeration(order, Elems(results[table[t].name]))
    ensures Enumerates(table[..t + 1], results, orders + [order])
    ensures Document(table[..t + 1], results, orders + [order])
         == Document(table[..t], results, orders) + Section(table[t].name, results[table[t].name], order)
  {
    assert table[..t + 1][..t] == table[..t];
    assert (orders + [order])[..t] == orders;
  }

  /**
   * One turn of the writer's loop: nothing for an empty list; otherwise the
   * header, the sorted distinct records in two padded columns, a blank line.
   */
  method WriteSection(group: string, rs: seq<Located>) returns (text: string, order: seq<Located>)
    ensures IsEnumeration(order, Elems(rs))
    ensures text == Section(group, rs, order)
  {
    text := "";
    order := [];
    if rs != [] {
      text := Header(group);
      order := Enumerate(Elems(rs));
      var sorted := SortBy(order, ByPathThenFile);
      var pathWidth := MaxLen(PathColumn(sorted));
      var categoryWidth := MaxLen(CategoryColumn(sorted));
      for i := 0 to |sorted|
        invariant text == Header(group) + Concat(Rows(sorted)[..i])
      {
        ConcatStep(Header(group), Rows(sorted), i);
        text := text + Row(sorted[i], pathWidth, categoryWidth);
      }
      assert Rows(sorted)[..|sorted|] == Rows(sorted);
      text := text + "\n";
    } else {
      ElemsEmpty(rs);
    }
  }

  /** The whole script: the scan, then the writer, on the table of re-simple.py. */
  method ScanAndReport(files: seq<SourceFile>, findall: (string, string) -> seq<string>, canOpen: bool)
    returns (written: Option<string>, orders: seq<seq<Located>>)
    ensures canOpen ==> && Enumerates(SimpleTable, Matched(SimpleTable, files, findall, Record), orders)
                        && written == Some(Document(SimpleTable, Matched(SimpleTable, files, findall, Record), orders))
    ensures !canOpen ==> written == None
  {
    assert DistinctNames(SimpleTable);
    var results, _, _ := Collect(SimpleTable, files, findall, Record);
    MatchedByGroup(SimpleTable, files, findall, Record, results);
    written, orders := WriteReport(SimpleTable, results, canOpen);
  }
}
