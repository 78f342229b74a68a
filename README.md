# JS path harvester — a Dafny model

The repository holds three Python scripts that dig API paths out of
JavaScript files.

- `url-js.py` downloads every script a web page links to. It extracts
  path-like strings from the scripts, turns each path into two more page
  URLs, downloads the scripts those pages link to, and repeats until the
  set of paths stops changing (at most five rounds). It then writes a
  categorised report of every match in the download directory.
- `re-simple.py` and `re-api-dir.py` scan one directory of `.js` files
  with a table of regular expressions. Each writes one report section per
  pattern group.

This project models the logic of those scripts and proves what they
promise. The modules are:

- `FileNames` (filenames.dfy) models how a file name is derived from a
  URL (`get_valid_filename`). It also models the collision loop that
  finds a free name (`_1`, `_2`, … before the extension) and the download
  directory as a class whose set of names grows with every saved file.
- `Links` (links.dfy) models which `<script>`/`<link>` tags yield a script
  link (`extract_js_links`). It also models the `/#` fragment of the
  "hash" URL, the two candidate URLs per path, the pooling of all links
  found on them, and the download of that pool
  (`construct_and_request_urls`).
- `Scan` (scan.dfy) models the nested loop shared by all three scripts:
  `.js` files, then groups, then patterns, then matches. The loop
  appends one record per match to the group's list. The same generic
  `Collect` serves the three record shapes.
- `PathSet` (paths.dfy) models `analyze_js_files_for_paths`: how a match
  is normalised, the set of normalised paths and its sorted list.
- `Discovery` (discovery.dfy) models the main `while` loop as a
  function of its state, and as the loop itself.
- `Report` (report.dfy) holds what the three writers share: the header,
  the widest-column computation, the deduplicating sort, and the order of
  the set visit.
- `ApiDir`, `Simple` and `FinalReport` (apidir.dfy, simple.dfy,
  final.dfy) model the three report writers, each with its own pattern
  table, record shape, line layout and sort key. `FinalReport` also
  writes the statistics block and counts the lines.
- `Text`, `Order` and `Options` are the string, ordering and option
  helpers those modules need.

Some parts of the environment cannot be seen or are nondeterministic.
They become parameters:

- the regular-expression engine: `findall(regex, text)`;
- a page fetch plus HTML parse: `fetch(url)`, returning the page's tags
  or `None`;
- `urljoin`, `urlparse(...).path` and the two URL builders of
  `construct_and_request_urls`: `join`, `pathOf`, `directUrl` and
  `hashUrl`;
- whether a download succeeds: `downloaded`;
- whether the output file can be opened: `canOpen`;
- the formatted local time: `stamp`;
- one whole discovery round: `crawl`.

The order in which Python visits a `set` is modelled as an arbitrary
enumeration of the set (each element once). The writer methods choose
one and return it, so their contracts hold for every visiting order.

Three behaviours of the code are easy to misread. The model follows the
code:

- Of the recorded matches, only those of `final_path_analysis` are
  stripped of surrounding whitespace (url-js.py:294,
  `ListedPathsStripped`). `re-simple.py` and `re-api-dir.py` record the
  match as found. The path analysis strips a match before normalising it
  (url-js.py:159), but it records the normal form, not the match.
- The stylesheet-`<link>` branch of `extract_js_links` is live. The
  parser reports `rel` as a list of tokens, so a link whose `rel` is
  exactly `stylesheet` and whose `href` ends in `.js` is collected
  (`Links.Reference`, `SelectLinksExactly`).
- Only `re-api-dir.py` writes a report that is byte-identical whatever
  order the records were gathered in, because every group there has a
  single category (`ApiDir.ReportIgnoresOrder`). The other two writers
  sort on part of the record only. Two records with the same key and
  different categories of equal length are then written in set order, and
  the two visiting orders give two different sections
  (`Simple.TieOrderMatters`, `FinalReport.TieOrderMatters`).

## Model

| member | source | states |
|---|---|---|
| FileNames.LastSegment | url-js.py:13 | the segment after the last "/" of the URL path: it contains no "/", is a suffix of the path, and is preceded by "/" when shorter than the path |
| FileNames.Sanitize | url-js.py:16 | the filter keeps only letters, digits, "-", "_" and "." and never lengthens the name |
| FileNames.SanitizeMembers | url-js.py:16 | a character is in the filtered name iff it is in the name and allowed: allowed characters are kept, all others dropped |
| FileNames.SanitizeChar | url-js.py:16 | one allowed character is kept as is; one other character is dropped, not replaced |
| FileNames.SanitizeConcat | url-js.py:16 | filtering works character by character: filtering a concatenation is concatenating the filtered parts |
| FileNames.SanitizeClean | url-js.py:16 | a name made of allowed characters only is left unchanged |
| FileNames.SanitizeKeepsJs | url-js.py:14-16 | filtering a name that ends in ".js" keeps the ".js" ending |
| FileNames.SanitizeJs | url-js.py:14-16 | the ".js" suffix survives the filter unchanged |
| FileNames.ValidFilename | url-js.py:10-17 | the derived file name is never empty, always ends in ".js" and holds only allowed characters |
| FileNames.WithJsSuffix | url-js.py:14-15 | after the suffix step the name ends in ".js" |
| FileNames.ValidFilenameOfDirectory | url-js.py:13-15 | a URL path ending in "/" (empty last segment) gives "index.js" |
| FileNames.ValidFilenameSuffix | url-js.py:13-16 | a non-empty last segment is filtered, and ".js" is appended exactly when it did not already end in ".js" |
| FileNames.ValidFilenameKeepsCleanName | url-js.py:10-17 | a last segment that is already a clean ".js" name is used as is |
| FileNames.LastDot | url-js.py:37 | finds the last "." of the name, or reports that there is none |
| FileNames.SplitExt | url-js.py:37 | `splitext`: the two parts concatenate back to the name; the extension is empty or starts at the last dot with no other dot in it; it is empty exactly when no dot follows a non-dot character (a leading-dot name has no extension) |
| FileNames.SplitExtExamples | url-js.py:37-38 | "foo.js" splits as ("foo", ".js") and its first alternative is "foo_1.js"; ".js" has no extension and becomes ".js_1" |
| FileNames.Candidate | url-js.py:37-38 | the k-th alternative is the stem, "_" and then the decimal k and the extension: one character plus the digits longer than the name, with the stem first and "_" right after it |
| FileNames.LaterCandidatesDiffer | url-js.py:35-39 | the name tried at a turn of the collision loop differs from every alternative the loop can still try |
| FileNames.CandidateLonger | url-js.py:38 | every numbered alternative is longer than the original name |
| FileNames.CandidateInjective | url-js.py:35-39 | different counters give different alternatives, so the loop never retries a name |
| FileNames.FreeName | url-js.py:35-39 | the collision loop returns the first free name in the sequence name, name_1, name_2, …: it is not taken and all earlier ones are |
| FileNames.Directory.constructor | url-js.py:89 | the directory starts with the files already in it |
| FileNames.Directory.Save | url-js.py:19-49 | a successful download adds exactly one file, under the first free name derived from the URL, and returns it; a failed one returns nothing and leaves the directory unchanged; an existing file is never overwritten |
| FileNames.Directory.SaveAll | url-js.py:233-243 | downloading a set of links in any order adds one new, distinct, previously absent file per successful download, and nothing else; the ghost list of succeeded links enumerates them in visiting order, and file i is the first free name derived from link i given the old files and the files saved before it |
| FileNames.Directory.SaveNext | url-js.py:235-241 | one turn of the download loop keeps the loop invariant: the succeeded links so far are listed once each, each file saved so far is the first free name derived from its link at its turn, the files are new and distinct, and the directory holds exactly the old files and those |
| FileNames.SucceededEnumStep | url-js.py:238-240 | one more link extends the list of succeeded links by itself exactly when its download succeeds |
| FileNames.NamedInTurnStep | url-js.py:31-41 | saving one more file under the first free name derived from its link keeps every earlier file tied to its own link |
| FileNames.SucceededStep | url-js.py:238-240 | one more link adds one to the success count exactly when its download succeeds |
| Links.Reference | url-js.py:61-67 | a script's non-empty `src` is its reference; otherwise only a link with `rel` exactly ["stylesheet"] and a non-empty `href` ending in ".js" yields that `href`; other tags yield nothing |
| Links.SelectLinks | url-js.py:61-72 | at most one link per tag |
| Links.TagLinks | url-js.py:61-72 | one tag contributes at most one link, and contributes a URL exactly when it yields it as a selected script reference |
| Links.SelectLinksExactly | url-js.py:61-72 | a URL is collected iff some tag is a script with a `src`, or a link with `rel` exactly ["stylesheet"] and an `href` ending in ".js", whose resolved reference ends in ".js" or whose `type` mentions "javascript" in any case |
| Links.ExtractJsLinks | url-js.py:51-78 | a failed fetch or parse gives no links; otherwise the links of the selected tags in document order, duplicates kept |
| Links.HashFragment | url-js.py:190 | the fragment ends with the path; it is the path itself exactly when the path starts with "#", and otherwise "/#" followed by the path |
| Links.PooledLinksExactly | url-js.py:205-228 | a link is in the pool iff some candidate page lists it |
| Links.PooledLinksAppend | url-js.py:207-228 | the pool over the direct URLs followed by the hash URLs is the union of the two pools |
| Links.CandidateLists | url-js.py:184-199 | one direct URL and one hash URL per path, built from the path at the same position |
| Links.PoolPages | url-js.py:207-228 | requesting each page of a list adds exactly the links those pages list to the pool |
| Links.CandidateUrls | url-js.py:180-199 | two candidate URLs per path: all the direct URLs first, then the hash URLs, each built from the path at the same position |
| Links.CollectNewLinks | url-js.py:180-230 | builds the direct and hash URL lists, one per path, and pools the links of every page among them |
| Links.ConstructAndRequest | url-js.py:174-243 | one new file per pooled link whose download succeeds, each new file distinct and previously absent; the directory grows by exactly those files; file i is the first free name derived from the i-th succeeded link |
| Scan.MatchRecords | url-js.py:292-294 | one record per match, in match order |
| Scan.Matched | url-js.py:271-296 | the result mapping has exactly the group names as keys, and each group maps to its records over all scanned files |
| Scan.MatchedByGroup | url-js.py:271-296 | a mapping with the group keys whose every group holds that group's records is the result mapping |
| Scan.CountJs | url-js.py:145-146 | the count of ".js" files is at most the number of files |
| Scan.CountScanned | url-js.py:148-151 | the count of files read is at most the count of ".js" files |
| Scan.PatternRecordsExactly | url-js.py:289-294 | a record comes from one file iff it is built from some match of some pattern of the group in that file's text |
| Scan.GroupRecordsExactly | url-js.py:276-294 | a record is in a group's list iff some readable ".js" file has a pattern match that builds it |
| Scan.Collect | url-js.py:270-296 | the loop over files yields every group's records and the counts of ".js" files and of files read; unreadable and non-".js" files add nothing (the same loop as re-simple.py:33-53 and re-api-dir.py:31-51) |
| Scan.ScanFile | url-js.py:283-294 | reading one file appends, group by group, exactly that file's records and changes no other key |
| Scan.AppendGroup | url-js.py:289-294 | one group on one file: its list grows by the records of each pattern in pattern order |
| Scan.AppendMatches | url-js.py:292-294 | one pattern: the list grows by one record per match, in match order |
| Scan.WalkStep | url-js.py:276-294 | one more file adds its own records to every group and counts once as ".js" and once as read exactly when it is |
| PathSet.Normalize | url-js.py:159-163 | a normalised path is empty or starts with "/"; it is empty exactly when the stripped match is "" or "/" |
| PathSet.NormalizeFixedPoints | url-js.py:158-163 | normalisation leaves a string unchanged iff it is empty or already starts with "/", has no trailing "/" and no surrounding whitespace |
| PathSet.NormalizeNotIdempotent | url-js.py:159-163 | only one trailing "/" is removed: "a//" normalises to "/a/", which normalises again to "/a" |
| PathSet.NormalizeSpellings | url-js.py:159-163 | "a/", "/a" and "a" (for a clean a) all normalise to "/a" |
| PathSet.FilePathsExactly | url-js.py:154-164 | the paths of one file are the normalised matches of its patterns |
| PathSet.FoundPathsByFile | url-js.py:143-164 | a path is found iff some readable ".js" file yields it |
| PathSet.FoundPathsExactly | url-js.py:138-164 | a path is found iff it is the normal form of some match of some pattern in some readable ".js" file |
| PathSet.AnalyzePaths | url-js.py:122-171 | the result is strictly increasing (sorted, no duplicates) and holds exactly the found paths; it also returns the counts of ".js" files and files read |
| PathSet.CollectPaths | url-js.py:138-166 | the loop's set is exactly the found paths, with both counts |
| PathSet.FilePathsUnscanned | url-js.py:145-166 | a non-".js" or unreadable file adds no path |
| PathSet.AddFilePaths | url-js.py:154-164 | one file adds exactly its own paths to the set |
| PathSet.AddGroupPaths | url-js.py:155-164 | one group on one file adds exactly the normal forms of the matches of its patterns |
| PathSet.AddMatches | url-js.py:156-164 | one pattern's matches add exactly their normal forms |
| Discovery.Start | url-js.py:356-360 | the loop starts at round 1 with no previous set, the current list equal to the first analysis, the current set equal to that list's set, and no files |
| Discovery.Run | url-js.py:363-402 | the loop as a function of its state leaves a state where the loop guard fails, never with a smaller counter |
| Discovery.RunEnds | url-js.py:363-402 | the loop ends with the counter between 1 and 6 and the current set equal to the current list's; it stops only at the cap or with previous and current sets equal (the `break` on an empty list included) |
| Discovery.NoInitialPaths | url-js.py:359-363 | with no initial path the loop does not run at all |
| Discovery.NonEmptyStartRunsARound | url-js.py:371-399 | with initial paths at least one round runs, and the files of that first round come first in the final list |
| Discovery.RunKeepsFiles | url-js.py:384 | later rounds only append to the list of new files |
| Discovery.AlwaysNewRunsToCap | url-js.py:363-399 | if every round returns a non-empty list with a different set, the loop stops at the cap (counter 6) |
| Discovery.AlwaysNewFromStart | url-js.py:356-399 | the same from a non-empty first analysis |
| Discovery.FixedPointAfterOneRound | url-js.py:363-399 | if the first round reproduces the initial set, the loop stops after it, with counter 2 and that round's paths and files |
| Discovery.Discover | url-js.py:355-402 | the loop computes the loop function's final state; its counter is between 1 and 6, its current set is its list's set, and with no initial path it ends at 1 with no files |
| Text.TrimStart | url-js.py:159 | `lstrip` drops exactly a whitespace prefix: what is left is a suffix that does not start with whitespace |
| Text.TrimEnd | url-js.py:159 | `rstrip` drops exactly a whitespace suffix: what is left is a prefix that does not end with whitespace |
| Text.StripIsTrimmedSlice | url-js.py:159 | `strip` leaves a slice of the string with only whitespace outside it |
| Text.StripEnds | url-js.py:294 | a stripped string neither starts nor ends with whitespace |
| Text.Lower | url-js.py:71 | `lower` keeps the length, maps each ASCII capital to its small letter (code point plus 32), and changes nothing else |
| Text.PadRight | url-js.py:313 | `ljust` pads with spaces to the width and keeps the string as prefix; a longer string is left as is |
| Text.Decimal | url-js.py:38 | the decimal form of a count is a non-empty string of digits with no leading zero: it starts with "0" only for 0, which is "0" |
| Text.DecimalRoundTrip | url-js.py:38 | reading the decimal form back gives the number |
| Text.DecimalInjective | url-js.py:38 | different counts have different decimal forms |
| Order.StrLeTotalOrder | url-js.py:171 | the code-point order Python sorts strings by is total, transitive and antisymmetric |
| Order.SortBy | url-js.py:309 | `sorted` returns a permutation of its input |
| Order.SortBySorted | url-js.py:309 | the sort returns a permutation of its input, sorted by the key |
| Order.SortByStable | url-js.py:309 | the sort is stable: of two different elements of a duplicate-free input, the earlier one stays earlier when it is not greater than the later one (in particular when their keys tie) |
| Order.InsertAt | url-js.py:309 | one insertion step splices the element into the list at one point, keeping the other elements in order, and every element after that point is greater than it |
| Order.EnumerationFacts | url-js.py:309 | a visit of a set holds each element once and nothing else |
| Order.Enumerate | url-js.py:309 | picks a visiting order of a set |
| Order.SortedSet | url-js.py:171 | `sorted` of a set: strictly increasing and holding exactly the set |
| Order.StrictlyIncreasingUnique | url-js.py:171 | there is only one sorted, duplicate-free list of a set, so the path list does not depend on the set's order |
| Report.ByPathPreorder | url-js.py:309 | the path key is a total preorder (ties allowed) |
| Report.MaxLen | url-js.py:310 | the column width bounds every entry, is attained by some entry, and is 0 for none |
| Report.SectionFrame | url-js.py:307-315 | a section starts with its header and, after its last line, ends with a blank line |
| Report.EnumerationEmpty | url-js.py:306-309 | the set of a group's records is empty exactly when the list is, so a section is written exactly for groups that matched |
| Report.SortedEnumeration | url-js.py:309 | whatever the set's order, the sorted list is sorted by the key and holds each distinct record exactly once |
| Report.SortedUnique | url-js.py:309 | two sorted arrangements of the same records are equal when the key ties no two different records |
| Report.SortIgnoresOrder | url-js.py:309 | without ties, sorting two visiting orders of a set gives the same list |
| Report.TieSectionsDiffer | url-js.py:309-313 | two different lines of one length written in the two orders give two different sections |
| ApiDir.Rows | re-api-dir.py:61-63 | one line per distinct record |
| ApiDir.Row | re-api-dir.py:63 | a line starts with the path and ends with a tab, the category and a line end |
| ApiDir.RowLayout | re-api-dir.py:63 | a line is the path padded with spaces to the width, a tab at the width, then the category and a line end |
| ApiDir.RowsAligned | re-api-dir.py:61-63 | every line of a section is its path, spaces up to the longest path, the tab in that column, then the category; some path reaches that column |
| ApiDir.RowAligned | re-api-dir.py:61-63 | line i of a section is record i's path, spaces up to the longest path, the tab in that column, then the category |
| ApiDir.WidestPath | re-api-dir.py:61 | some path of a non-empty section is as long as the column |
| ApiDir.Section | re-api-dir.py:57-64 | a section is empty exactly when its group matched nothing |
| ApiDir.Document | re-api-dir.py:56-64 | the output file is empty exactly when no group matched anything |
| ApiDir.SectionLayout | re-api-dir.py:57-64 | a section is empty iff its group matched nothing; otherwise it starts with the header, ends with a blank line, and lists each distinct record once, sorted by path |
| ApiDir.SectionFramed | re-api-dir.py:58-64 | a non-empty section starts with its header and ends with a blank line |
| ApiDir.OneCategoryRecords | re-api-dir.py:43-49 | every record of a single-category group carries that category |
| ApiDir.ApiDirTableShape | re-api-dir.py:5-24 | every group of the table uses one category, and the group names are distinct |
| ApiDir.NoTies | re-api-dir.py:60 | records of one category that share a path are equal, so the path key has no ties |
| ApiDir.DocumentIgnoresOrder | re-api-dir.py:56-64 | without ties in any group, the output does not depend on the set visiting order |
| ApiDir.OneCategoryTieFree | re-api-dir.py:43-49 | the records of a single-category table have no ties |
| ApiDir.ReportIgnoresOrder | re-api-dir.py:53-64 | the report of re-api-dir.py is byte-identical for every visiting order of every group's set |
| ApiDir.SingleCategoryIgnoresOrder | re-api-dir.py:53-64 | the same for any table whose groups each use one category |
| ApiDir.WriteReport | re-api-dir.py:54-67 | if the file opens, it holds the sections of the groups in table order, each for the visiting order the writer used; otherwise nothing is written |
| ApiDir.WriteSection | re-api-dir.py:57-64 | writes one group's section for the visiting order it used |
| ApiDir.ScanAndReport | re-api-dir.py:31-67 | the whole script: the report of the records of every readable ".js" file under the table |
| Simple.ByPathThenFilePreorder | re-simple.py:62 | the (path, file) key is a total preorder |
| Simple.Rows | re-simple.py:65-70 | one line per distinct record |
| Simple.Row | re-simple.py:70 | a line starts with the path and ends with a tab, the file name and a line end |
| Simple.RowLayout | re-simple.py:70 | a line is the path, spaces up to the path width, a tab, the category, spaces up to the category width, a tab, the file name and a line end, of length pathWidth + categoryWidth + len(file) + 3 |
| Simple.RowPadding | re-simple.py:70 | the gaps after the path and after the category are spaces |
| Simple.RowsAligned | re-simple.py:64-70 | on every line of a section the path is padded with spaces to the longest path and the category to the longest category, so both tabs sit in the same columns |
| Simple.Section | re-simple.py:59-71 | a section is empty exactly when its group matched nothing |
| Simple.Document | re-simple.py:58-71 | the output file is empty exactly when no group matched anything |
| Simple.SectionLayout | re-simple.py:59-71 | a section is empty iff its group matched nothing; otherwise it starts with the header, ends with a blank line, and lists each distinct record once, sorted by path then file |
| Simple.SectionFramed | re-simple.py:59-71 | a non-empty section starts with its header and ends with a blank line |
| Simple.TieOrderMatters | re-simple.py:62 | two records with the same path and file and different categories of equal length are written in set order: the two visiting orders give different sections |
| Simple.RowsDiffer | re-simple.py:70 | two lines with the same path and file and different categories of equal length differ and have the same length |
| Simple.TiedRows | re-simple.py:62-70 | two records with the same path and file stay in the order visited, padded to the common widths |
| Simple.WriteReport | re-simple.py:56-74 | if the file opens, it holds the sections of the groups in table order; otherwise nothing is written |
| Simple.WriteSection | re-simple.py:58-71 | writes one group's section for the visiting order it used |
| Simple.ScanAndReport | re-simple.py:33-74 | the whole script: the report of the (match, category, file name) records of every readable ".js" file |
| FinalReport.Rows | url-js.py:310-313 | one line per distinct record |
| FinalReport.Row | url-js.py:313 | a line starts with the path and ends with a tab, the bracketed category and a line end |
| FinalReport.RowLayout | url-js.py:313 | a line is the path, at least two spaces, a tab at the width, the bracketed category and a line end |
| FinalReport.RowsAligned | url-js.py:310-313 | every tab sits in the same column, two past the longest path; some path has exactly two spaces after it |
| FinalReport.SectionLayout | url-js.py:305-315 | a section is empty iff its group matched nothing; otherwise it starts with the header, ends with a blank line, and lists each distinct record once, sorted by path |
| FinalReport.SectionFramed | url-js.py:305-315 | a non-empty section starts with its header and ends with a blank line |
| FinalReport.Section | url-js.py:305-315 | a section is empty exactly when its group matched nothing |
| FinalReport.Sections | url-js.py:305-315 | the sections are empty together exactly when no group matched anything |
| FinalReport.Stats | url-js.py:317-321 | the statistics block opens with the "统计信息" header line and ends with the line of the analysis time |
| FinalReport.RecordStripped | url-js.py:294 | a recorded path has no whitespace at either end |
| FinalReport.ListedPathsStripped | url-js.py:288-294 | no path in any group's records begins or ends with whitespace |
| FinalReport.TieOrderMatters | url-js.py:309 | one path under two categories of equal length is written in set order: the two visiting orders give different sections |
| FinalReport.RowsDiffer | url-js.py:313 | two lines with the same path and different categories of equal length differ and have the same length |
| FinalReport.WriteReport | url-js.py:301-328 | if the file opens, it holds the sections in table order followed by the statistics block, and the returned total is the number of distinct records (the lines written); otherwise nothing is written and 0 is returned |
| FinalReport.WriteSection | url-js.py:305-315 | writes one group's section and counts its lines: the number of distinct records |
| FinalReport.WriteRows | url-js.py:310-313 | the record lines written one by one are the section's lines, padded to the section's width |
| FinalReport.WriteSections | url-js.py:305-315 | the loop over the groups writes their sections in table order and counts every distinct record once |
| FinalReport.FinalPathAnalysis | url-js.py:246-328 | the whole step: the report of the stripped records of every readable ".js" file, with the count of files read in the statistics |

## Left out

- HTTP requests, sessions, headers, timeouts and the half-second pauses
  are left out. A page fetch is the parameter `fetch`; a download's
  success is the parameter `downloaded`; the bytes written are not
  modelled.
- HTML parsing is left out. The model starts from the tags the parser
  reports (name, `src`, `rel`, `href`, `type`).
- `urljoin`, `urlparse` and `urlunparse` are parameters, as is the
  regular-expression engine (`findall`). The pattern tables are kept as
  data, but the model does not interpret the patterns.
- `get_path_hash` (url-js.py:80-84) is never called by the program and is
  not modelled.
- `download_initial_js_files` (url-js.py:87-119) is not modelled beyond
  the parts it shares with `construct_and_request_urls` (`Save`,
  `SaveAll`, `ExtractJsLinks`). The failure exit of the main program
  (url-js.py:343-347) is left out.
- Console output, `input()` and `exit` are left out.
- The walk of the directory is a sequence of files. Each file has a name
  and either its text or `None` when it cannot be read.
- `Discover` takes one round of the loop as the parameter `crawl`. The
  model does not tie that parameter to `ConstructAndRequest` and
  `AnalyzePaths`: their connection runs through the real file system,
  which is not modelled.
- `new_files` holds full file paths in the source. The model returns the
  names inside the one download directory.
- ExtractJsLinks: the parameter `join` is total. In the source, an
  exception raised inside the tag loop (for instance `urljoin` rejecting a
  malformed reference with `ValueError`) makes the whole page yield no
  links (url-js.py:69-78); the model cannot express that path.
- Text.Lower: covers ASCII capitals only. Python's `lower` also folds
  non-ASCII letters.
- FileNames.Allowed: covers ASCII letters and digits only. Python's
  `isalnum` also accepts non-ASCII letters and digits.
- A write error after the output file has been opened is not modelled.
  The model only distinguishes whether the file opens (`canOpen`).
- The timestamp of the statistics block is the parameter `stamp`.
