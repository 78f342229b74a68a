/**
 * Naming of downloaded script files: the file name derived from a URL path
 * and the numeric suffix that keeps a download from replacing an existing
 * file.
 */
module FileNames {
  import opened Options
  import opened Text
  import opened Order

  /** `path.split("/")[-1]`: the text after the last "/", or all of `path` when it has none. */
  function LastSegment(path: string): (r: string)
    ensures '/' !in r
    ensures EndsWith(path, r)
    ensures |r| < |path| ==> path[|path| - |r| - 1] == '/'
  {
    if path == [] || path[|path| - 1] == '/' then []
    else LastSegment(path[..|path| - 1]) + [path[|path| - 1]]
  }

  /** The characters a file name may keep. */
  predicate Allowed(c: char) {
    IsAlnum(c) || c == '-' || c == '_' || c == '.'
  }

  /** Drops every character that is not `Allowed`, keeping the others in order. */
  function Sanitize(s: string): (r: string)
    ensures forall i :: 0 <= i < |r| ==> Allowed(r[i])
    ensures |r| <= |s|
  {
    if s == [] then []
    else Sanitize(s[..|s| - 1]) + (if Allowed(s[|s| - 1]) then [s[|s| - 1]] else [])
  }

  /** The filter keeps every allowed character of the name and no other. */
  lemma {:induction false} SanitizeMembers(s: string)
    ensures forall c :: c in Sanitize(s) <==> c in s && Allowed(c)
  {
    if s != [] {
      var init, last := s[..|s| - 1], s[|s| - 1];
      SanitizeMembers(init);
      assert s == init + [last];
      assert Sanitize(s) == Sanitize(init) + (if Allowed(last) then [last] else []);
    }
  }

  /** One character is kept when it is allowed and dropped, not replaced, when it is not. */
  lemma SanitizeChar(c: char)
    ensures Allowed(c) ==> Sanitize([c]) == [c]
    ensures !Allowed(c) ==> Sanitize([c]) == []
  {
    assert [c][..0] == [];
  }

  lemma {:induction false} SanitizeConcat(a: string, b: string)
    ensures Sanitize(a + b) == Sanitize(a) + Sanitize(b)
  {
    if b == [] {
      assert a + b == a;
    } else {
      var last := b[|b| - 1];
      assert (a + b)[..|a + b| - 1] == a + b[..|b| - 1];
      assert (a + b)[|a + b| - 1] == last;
      SanitizeConcat(a, b[..|b| - 1]);
      calc {
        Sanitize(a + b);
        Sanitize(a + b[..|b| - 1]) + (if Allowed(last) then [last] else []);
        Sanitize(a) + Sanitize(b[..|b| - 1]) + (if Allowed(last) then [last] else []);
        Sanitize(a) + Sanitize(b);
      }
    }
  }

  /** A string made only of allowed characters is left as it is. */
  lemma {:induction false} SanitizeClean(s: string)
    requires forall i :: 0 <= i < |s| ==> Allowed(s[i])
    ensures Sanitize(s) == s
  {
    if s != [] {
      SanitizeClean(s[..|s| - 1]);
    }
  }

  lemma SanitizeJs()
    ensures Sanitize(".js") == ".js"
  {
    assert ".js"[..2] == ".j" && ".j"[..1] == "." && "."[..0] == [];
  }

  /** Sanitising keeps a ".js" ending. */
  lemma SanitizeKeepsJs(s: string)
    requires EndsWith(s, ".js")
    ensures EndsWith(Sanitize(s), ".js")
    ensures Sanitize(s) == Sanitize(s[..|s| - 3]) + ".js"
  {
    var stem, js := s[..|s| - 3], ".js";
    assert s == stem + js;
    SanitizeConcat(stem, js);
    SanitizeJs();
    var r := Sanitize(stem) + js;
    assert r[|r| - 3..] == js;
  }

  /**
   * `get_valid_filename`: the last segment of the URL path ("index" when it is
   * empty), given a ".js" ending when it lacks one, then stripped of every
   * character other than alphanumerics, '-', '_' and '.'.
   */
  function ValidFilename(urlPath: string): (r: string)
    ensures r != [] && EndsWith(r, ".js")
    ensures forall i :: 0 <= i < |r| ==> Allowed(r[i])
  {
    var named := WithJsSuffix(if LastSegment(urlPath) == "" then "index" else LastSegment(urlPath));
    SanitizeKeepsJs(named);
    Sanitize(named)
  }

  /** `name`, with ".js" appended unless it already ends that way. */
  function WithJsSuffix(name: string): (r: string)
    ensures EndsWith(r, ".js")
  {
    if EndsWith(name, ".js") then name else name + ".js"
  }

  /** An empty last segment (a path ending in "/", or no path) names the file "index.js". */
  lemma ValidFilenameOfDirectory(urlPath: string)
    requires LastSegment(urlPath) == ""
    ensures ValidFilename(urlPath) == "index.js"
  {
    assert !EndsWith("index", ".js");
    assert WithJsSuffix("index") == "index.js";
    SanitizeClean("index.js");
  }

  /** A segment already ending in ".js" gets no second suffix; any other segment gets exactly one. */
  lemma ValidFilenameSuffix(urlPath: string)
    requires LastSegment(urlPath) != ""
    ensures EndsWith(LastSegment(urlPath), ".js") ==> ValidFilename(urlPath) == Sanitize(LastSegment(urlPath))
    ensures !EndsWith(LastSegment(urlPath), ".js") ==> ValidFilename(urlPath) == Sanitize(LastSegment(urlPath)) + ".js"
  {
    var segment := LastSegment(urlPath);
    assert ValidFilename(urlPath) == Sanitize(WithJsSuffix(segment));
    if !EndsWith(segment, ".js") {
      SanitizeConcat(segment, ".js");
      SanitizeClean(".js");
    }
  }

  /** A clean segment ending in ".js" is the file name verbatim. */
  lemma ValidFilenameKeepsCleanName(urlPath: string)
    requires EndsWith(LastSegment(urlPath), ".js")
    requires forall i :: 0 <= i < |LastSegment(urlPath)| ==> Allowed(LastSegment(urlPath)[i])
    ensures ValidFilename(urlPath) == LastSegment(urlPath)
  {
    SanitizeClean(LastSegment(urlPath));
  }

  /** The index of the last "." in `s`, if any. */
  function LastDot(s: string): (r: Option<nat>)
    ensures r.Some? ==> r.value < |s| && s[r.value] == '.' && forall j :: r.value < j < |s| ==> s[j] != '.'
    ensures r.None? ==> forall j :: 0 <= j < |s| ==> s[j] != '.'
  {
    if s == [] then None
    else if s[|s| - 1] == '.' then Some(|s| - 1)
    else LastDot(s[..|s| - 1])
  }

  /**
   * `os.path.splitext` for a name without directory separators: the extension
   * runs from the last "." to the end, unless only dots precede that "." (a
   * leading-dot name such as ".js" has no extension).
   */
  function SplitExt(name: string): (r: (string, string))
    ensures r.0 + r.1 == name
    ensures r.1 != [] ==> r.1[0] == '.' && '.' !in r.1[1..]
    ensures r.1 == [] <==> forall i, j :: 0 <= i < j < |name| && name[i] != '.' ==> name[j] != '.'
  {
    match LastDot(name)
    case None => (name, "")
    case Some(d) =>
      if exists i :: 0 <= i < d && name[i] != '.' then (name[..d], name[d..]) else (name, "")
  }

  /** The `k`-th alternative name: `stem_k` followed by the extension. */
  function Candidate(filename: string, k: nat): (r: string)
    ensures |r| == |filename| + 1 + |Decimal(k)|
    ensures r[..|SplitExt(filename).0|] == SplitExt(filename).0 && r[|SplitExt(filename).0|] == '_'
    ensures r[|SplitExt(filename).0| + 1..] == Decimal(k) + SplitExt(filename).1
  {
    var (stem, ext) := SplitExt(filename);
    assert (stem + "_") + (Decimal(k) + ext) == stem + "_" + Decimal(k) + ext;
    (stem + "_") + (Decimal(k) + ext)
  }

  /** `os.path.splitext` on the examples the download loop meets. */
  lemma SplitExtExamples()
    ensures SplitExt("foo.js") == ("foo", ".js")
    ensures SplitExt(".js") == (".js", "")
    ensures Candidate("foo.js", 1) == "foo_1.js"
    ensures Candidate(".js", 1) == ".js_1"
  {
    assert LastDot("foo.js") == Some(3);
    assert 0 < 3 && "foo.js"[0] != '.';
    assert "foo.js"[..3] == "foo" && "foo.js"[3..] == ".js";
    assert LastDot(".js") == Some(0);
  }

  /** Every alternative name is longer than the name it replaces. */
  lemma CandidateLonger(filename: string, k: nat)
    ensures |Candidate(filename, k)| > |filename|
  {
  }

  /** Different counters give different names. */
  lemma CandidateInjective(filename: string, m: nat, n: nat)
    requires Candidate(filename, m) == Candidate(filename, n)
    ensures m == n
  {
    var (stem, ext) := SplitExt(filename);
    var a, b := Candidate(filename, m), Candidate(filename, n);
    assert |Decimal(m)| == |Decimal(n)|;
    var lo, hi := |stem| + 1, |stem| + 1 + |Decimal(m)|;
    assert a[lo..][..|Decimal(m)|] == Decimal(m);
    assert b[lo..][..|Decimal(n)|] == Decimal(n);
    DecimalInjective(m, n);
  }

  /**
   * What the collision loop picks for `filename` in a directory holding
   * `taken`: the name itself when free, otherwise `Candidate(filename, k)` for
   * the smallest `k >= 1` that is free.
   */
  ghost predicate FirstFree(filename: string, taken: set<string>, name: string) {
    && name !in taken
    && (filename !in taken ==> name == filename)
    && (filename in taken ==>
          exists k :: k >= 1 && name == Candidate(filename, k)
            && forall j :: 1 <= j < k ==> Candidate(filename, j) in taken)
  }

  /**
   * The `while os.path.exists(filepath)` loop of `save_js_file`: tries
   * `filename`, then `Candidate(filename, 1)`, `Candidate(filename, 2)`, ...
   * until one is not taken. It ends for every finite set of existing names.
   */
  method FreeName(filename: string, taken: set<string>) returns (name: string)
    ensures FirstFree(filename, taken, name)
    ensures name == filename || |name| > |filename|
  {
    name := filename;
    var counter: nat := 1;
    ghost var tried: set<string> := {};
    while name in taken
      invariant counter >= 1
      invariant counter == 1 ==> name == filename && tried == {}
      invariant counter > 1 ==> name == Candidate(filename, counter - 1) && filename in taken
      invariant forall j :: 1 <= j < counter - 1 ==> Candidate(filename, j) in taken
      invariant tried <= taken && name !in tried
      invariant forall j :: j >= 1 && j >= counter - 1 ==> Candidate(filename, j) !in tried
      decreases |taken - tried|
    {
      LaterCandidatesDiffer(filename, counter, name);
      assert name in taken - tried;
      assert taken - (tried + {name}) < taken - tried;
      tried := tried + {name};
      name := Candidate(filename, counter);
      CandidateLonger(filename, counter);
      counter := counter + 1;
    }
    if counter > 1 {
      CandidateLonger(filename, counter - 1);
    }
  }

  /** The name tried at turn `counter` differs from every alternative still to come. */
  lemma LaterCandidatesDiffer(filename: string, counter: nat, name: string)
    requires counter >= 1
    requires counter == 1 ==> name == filename
    requires counter > 1 ==> name == Candidate(filename, counter - 1)
    ensures forall j :: j >= 1 && j >= counter ==> Candidate(filename, j) != name
  {
    forall j | j >= 1 && j >= counter
      ensures Candidate(filename, j) != name
    {
      if counter == 1 {
        CandidateLonger(filename, j);
      } else if Candidate(filename, j) == name {
        CandidateInjective(filename, j, counter - 1);
      }
    }
  }

  /** The download directory: the names of the files it holds. */
  class Directory {
    var names: set<string>

    constructor (existing: set<string>)
      ensures names == existing
    {
      names := existing;
    }

    /**
     * `save_js_file`: when the download succeeds, writes it under the first
     * free name derived from the URL path and returns that name; an existing
     * file is never replaced. A failed download leaves the directory as it was.
     */
    method Save(urlPath: string, downloaded: bool) returns (saved: Option<string>)
      modifies this
      ensures downloaded <==> saved.Some?
      ensures saved.Some? ==> FirstFree(ValidFilename(urlPath), old(names), saved.value)
      ensures saved.Some? ==> names == old(names) + {saved.value}
      ensures saved.None? ==> names == old(names)
    {
      if downloaded {
        var name := FreeName(ValidFilename(urlPath), names);
        names := names + {name};
        saved := Some(name);
      } else {
        saved := None;
      }
    }

    /**
     * The download loops over a set of script links (`for js_url in
     * set(js_links)`), in the set's own arbitrary order: every link whose
     * download succeeds adds one new file, each under a name that was free.
     * `ok` lists the links that succeeded, in the order they were visited:
     * file `saved[i]` belongs to link `ok[i]` and got the first name derived
     * from it that was free at that turn.
     */
    method SaveAll(links: set<string>, pathOf: string -> string, downloaded: string -> bool)
      returns (saved: seq<string>, ghost ok: seq<string>)
      modifies this
      ensures IsEnumeration(ok, Succeeded(links, downloaded))
      ensures NamedInTurn(pathOf, old(names), ok, saved)
      ensures |saved| == |Succeeded(links, downloaded)|
      ensures forall i :: 0 <= i < |saved| ==> saved[i] !in old(names)
      ensures forall i, j :: 0 <= i < j < |saved| ==> saved[i] != saved[j]
      ensures names == old(names) + Elems(saved)
    {
      saved, ok := [], [];
      var rest := links;
      ghost var done: set<string> := {};
      assert Succeeded(done, downloaded) == {};
      while rest != {}
        invariant rest <= links && done == links - rest
        invariant SavedSoFar(done, downloaded, pathOf, old(names), ok, saved, names)
        decreases |rest|
      {
        var link :| link in rest;
        saved, ok := SaveNext(done, link, pathOf, downloaded, old(names), ok, saved);
        done := done + {link};
        rest := rest - {link};
      }
      assert done == links;
      EnumerationFacts(ok, Succeeded(links, downloaded));
      AddedFreshElems(old(names), saved, names);
    }

    /** One turn of the download loop: save `link` and, when that succeeds, list the new file. */
    method SaveNext(ghost done: set<string>, link: string, pathOf: string -> string, downloaded: string -> bool,
                    ghost prior: set<string>, ghost ok: seq<string>, saved: seq<string>)
      returns (more: seq<string>, ghost okMore: seq<string>)
      modifies this
      requires link !in done && SavedSoFar(done, downloaded, pathOf, prior, ok, saved, names)
      ensures SavedSoFar(done + {link}, downloaded, pathOf, prior, okMore, more, names)
    {
      ghost var before := names;
      var file := Save(pathOf(link), downloaded(link));
      SavedStep(done, link, pathOf, downloaded, prior, ok, saved, before, file, names);
      more := if file.Some? then saved + [file.value] else saved;
      okMore := if file.Some? then ok + [link] else ok;
    }
  }

  /**
   * The loop invariant of `SaveAll` after the links `done`: `ok` lists the
   * links that succeeded, `saved` their files, one fresh name each.
   */
  ghost predicate SavedSoFar(done: set<string>, downloaded: string -> bool, pathOf: string -> string,
                             prior: set<string>, ok: seq<string>, saved: seq<string>, names: set<string>) {
    && IsEnumeration(ok, Succeeded(done, downloaded))
    && NamedInTurn(pathOf, prior, ok, saved)
    && AddedFresh(prior, saved, names)
  }

  /**
   * File `saved[i]` was written for link `ok[i]`, under the first free name
   * derived from its URL path, the directory then holding `prior` and the
   * files saved before it.
   */
  ghost predicate NamedInTurn(pathOf: string -> string, prior: set<string>, ok: seq<string>, saved: seq<string>) {
    |saved| == |ok| && forall i :: 0 <= i < |saved| ==> NamedAt(pathOf, prior, ok, saved, i)
  }

  /** Turn `i` of `NamedInTurn`. */
  ghost predicate NamedAt(pathOf: string -> string, prior: set<string>, ok: seq<string>, saved: seq<string>, i: nat)
    requires i < |saved| && i < |ok|
  {
    FirstFree(ValidFilename(pathOf(ok[i])), prior + Elems(saved[..i]), saved[i])
  }

  /** One more link: a success adds it and its file to the lists, a failure changes nothing. */
  lemma SavedStep(done: set<string>, link: string, pathOf: string -> string, downloaded: string -> bool, prior: set<string>,
                  ok: seq<string>, saved: seq<string>, before: set<string>, file: Option<string>, after: set<string>)
    requires link !in done && SavedSoFar(done, downloaded, pathOf, prior, ok, saved, before)
    requires downloaded(link) <==> file.Some?
    requires file.Some? ==> FirstFree(ValidFilename(pathOf(link)), before, file.value) && after == before + {file.value}
    requires file.None? ==> after == before
    ensures SavedSoFar(done + {link}, downloaded, pathOf, prior,
                       if file.Some? then ok + [link] else ok,
                       if file.Some? then saved + [file.value] else saved, after)
  {
    SucceededEnumStep(done, link, downloaded, ok);
    if file.Some? {
      AddedFreshElems(prior, saved, before);
      NamedInTurnStep(pathOf, prior, ok, saved, link, file.value);
      AddedFreshStep(prior, saved, before, file.value);
    }
  }

  /** A file saved under the name free after the earlier ones extends the account by one turn. */
  lemma NamedInTurnStep(pathOf: string -> string, prior: set<string>, ok: seq<string>, saved: seq<string>, link: string, file: string)
    requires NamedInTurn(pathOf, prior, ok, saved)
    requires FirstFree(ValidFilename(pathOf(link)), prior + Elems(saved), file)
    ensures NamedInTurn(pathOf, prior, ok + [link], saved + [file])
  {
    var ok', saved' := ok + [link], saved + [file];
    forall i | 0 <= i < |saved'| ensures NamedAt(pathOf, prior, ok', saved', i) {
      if i < |saved| {
        NamedAtKept(pathOf, prior, ok, saved, link, file, i);
      } else {
        NamedAtLast(pathOf, prior, ok, saved, link, file);
      }
    }
  }

  lemma NamedAtLast(pathOf: string -> string, prior: set<string>, ok: seq<string>, saved: seq<string>, link: string, file: string)
    requires |saved| == |ok| && FirstFree(ValidFilename(pathOf(link)), prior + Elems(saved), file)
    ensures NamedAt(pathOf, prior, ok + [link], saved + [file], |saved|)
  {
    assert (saved + [file])[..|saved|] == saved;
  }

  lemma NamedAtKept(pathOf: string -> string, prior: set<string>, ok: seq<string>, saved: seq<string>, link: string, file: string, i: nat)
    requires i < |saved| == |ok| && NamedAt(pathOf, prior, ok, saved, i)
    ensures NamedAt(pathOf, prior, ok + [link], saved + [file], i)
  {
    assert (saved + [file])[..i] == saved[..i];
  }

  /** The succeeded links listed in visiting order, after one more link. */
  lemma SucceededEnumStep(done: set<string>, link: string, downloaded: string -> bool, ok: seq<string>)
    requires link !in done && IsEnumeration(ok, Succeeded(done, downloaded))
    ensures IsEnumeration(if downloaded(link) then ok + [link] else ok, Succeeded(done + {link}, downloaded))
  {
    if downloaded(link) {
      assert Succeeded(done + {link}, downloaded) == Succeeded(done, downloaded) + {link};
      assert link !in Succeeded(done, downloaded);
    } else {
      assert Succeeded(done + {link}, downloaded) == Succeeded(done, downloaded);
    }
  }

  /**
   * `saved` lists the files added to a directory that held `prior` and now
   * holds `names`: each once, none of them there before, and nothing else.
   */
  ghost predicate AddedFresh(prior: set<string>, saved: seq<string>, names: set<string>) {
    && (forall i :: 0 <= i < |saved| ==> saved[i] !in prior)
    && (forall i, j :: 0 <= i < j < |saved| ==> saved[i] != saved[j])
    && (forall x :: x in names <==> x in prior || x in saved)
  }

  lemma AddedFreshElems(prior: set<string>, saved: seq<string>, names: set<string>)
    requires AddedFresh(prior, saved, names)
    ensures names == prior + Elems(saved)
  {
  }

  /** Saving one more file under a free name keeps the account. */
  lemma AddedFreshStep(prior: set<string>, saved: seq<string>, names: set<string>, file: string)
    requires AddedFresh(prior, saved, names) && file !in names
    ensures AddedFresh(prior, saved + [file], names + {file})
  {
  }

  /** The links among `links` whose download succeeds. */
  function Succeeded(links: set<string>, downloaded: string -> bool): set<string> {
    set l | l in links && downloaded(l)
  }

  lemma SucceededStep(done: set<string>, link: string, downloaded: string -> bool)
    requires link !in done
    ensures |Succeeded(done + {link}, downloaded)| == |Succeeded(done, downloaded)| + if downloaded(link) then 1 else 0
  {
    if downloaded(link) {
      assert Succeeded(done + {link}, downloaded) == Succeeded(done, downloaded) + {link};
    } else {
      assert Succeeded(done + {link}, downloaded) == Succeeded(done, downloaded);
    }
  }
}
