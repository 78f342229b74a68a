/**
 * Finding script links: which `<script>`/`<link>` tags of a page yield a
 * script URL, how candidate page URLs are built from discovered paths, and
 * how the links found on all of them are pooled and downloaded.
 * Fetching and parsing a page, `urljoin` and `urlunparse` are parameters.
 */
module Links {
  import opened Options
  import opened Text
  import opened Order
  import FileNames

  /** A `script` or `link` element as the HTML parser reports it; `None` is an absent attribute. */
  datatype Tag = Tag(
    name: string,
    src: Option<string>,
    rel: Option<seq<string>>,  // `rel` is multi-valued: a list of tokens
    href: Option<string>,
    kind: Option<string>)      // the `type` attribute

  /** `tag.get(attr)` is truthy: present and non-empty. */
  predicate Present(attr: Option<string>) {
    attr.Some? && attr.value != ""
  }

  /**
   * The reference a tag contributes: the `src` of a script, or the `href` of
   * a link whose `rel` is exactly ["stylesheet"] and whose `href` ends in ".js".
   */
  function Reference(t: Tag): (r: Option<string>)
    ensures r.Some? ==> r.value != "" && (r == t.src || r == t.href)
    ensures r.Some? && r != t.src ==> t.name == "link" && t.rel == Some(["stylesheet"]) && EndsWith(r.value, ".js")
    ensures t.name == "script" && Present(t.src) ==> r == t.src
    ensures t.name != "script" && t.name != "link" ==> r.None?
    ensures t.name == "link" ==> (r.Some? <==> t.rel == Some(["stylesheet"]) && Present(t.href) && EndsWith(t.href.value, ".js"))
    ensures t.name == "link" && r.Some? ==> r == t.href
  {
    if t.name == "script" && Present(t.src) then t.src
    else if t.name == "link" && t.rel == Some(["stylesheet"]) && Present(t.href) && EndsWith(t.href.value, ".js") then t.href
    else None
  }

  /** `'javascript' in tag.get('type', '').lower()` */
  predicate DeclaresJavascript(t: Tag) {
    Contains(Lower(t.kind.GetOr("")), "javascript")
  }

  /** Tag `t` of the page at `page` yields the resolved script URL `url`. */
  predicate Yields(page: string, t: Tag, join: (string, string) -> string, url: string) {
    && Reference(t).Some?
    && url == join(page, Reference(t).value)
    && (EndsWith(url, ".js") || DeclaresJavascript(t))
  }

  /** The links `extract_js_links` collects from the tags of one page, in document order. */
  function SelectLinks(page: string, tags: seq<Tag>, join: (string, string) -> string): (r: seq<string>)
    ensures |r| <= |tags|
  {
    if tags == [] then [] else SelectLinks(page, tags[..|tags| - 1], join) + TagLinks(page, tags[|tags| - 1], join)
  }

  /** The link one tag contributes: its resolved reference when that is selected. */
  function TagLinks(page: string, t: Tag, join: (string, string) -> string): (r: seq<string>)
    ensures |r| <= 1
    ensures forall url :: url in r <==> Yields(page, t, join, url)
  {
    match Reference(t)
    case Some(ref) => if EndsWith(join(page, ref), ".js") || DeclaresJavascript(t) then [join(page, ref)] else []
    case None => []
  }

  /**
   * A URL is collected exactly when some tag yields it: it is the resolved
   * reference of a script or stylesheet-link tag, and it ends in ".js" or
   * the tag's type mentions javascript.
   */
  lemma {:induction false} SelectLinksExactly(page: string, tags: seq<Tag>, join: (string, string) -> string, url: string)
    ensures url in SelectLinks(page, tags, join) <==> exists i :: 0 <= i < |tags| && Yields(page, tags[i], join, url)
  {
    if tags != [] {
      var init, last := tags[..|tags| - 1], tags[|tags| - 1];
      var earlier, here := SelectLinks(page, init, join), TagLinks(page, last, join);
      assert SelectLinks(page, tags, join) == earlier + here;
      SelectLinksExactly(page, init, join, url);
      if url in here {
        assert 0 <= |tags| - 1 < |tags| && Yields(page, tags[|tags| - 1], join, url);
      } else if url in earlier {
        var i :| 0 <= i < |init| && Yields(page, init[i], join, url);
        assert tags[i] == init[i];
      } else {
        forall i | 0 <= i < |tags| ensures !Yields(page, tags[i], join, url) {
          if i < |init| {
            assert tags[i] == init[i];
          } else {
            assert tags[i] == last;
          }
        }
      }
    }
  }

  /**
   * `extract_js_links`: the page's tags (`None` when the request, its status
   * check or the parse failed) scanned in order, each selected reference
   * resolved against the page URL.
   */
  method ExtractJsLinks(page: string, parsed: Option<seq<Tag>>, join: (string, string) -> string)
    returns (links: seq<string>)
    ensures parsed.None? ==> links == []
    ensures parsed.Some? ==> links == SelectLinks(page, parsed.value, join)
  {
    links := [];
    if parsed.Some? {
      var tags := parsed.value;
      for i := 0 to |tags|
        invariant links == SelectLinks(page, tags[..i], join)
      {
        assert tags[..i + 1][..i] == tags[..i];
        var src := Reference(tags[i]);
        if src.Some? {
          var full := join(page, src.value);
          if EndsWith(full, ".js") || DeclaresJavascript(tags[i]) {
            links := links + [full];
          }
        }
      }
      assert tags[..|tags|] == tags;
    }
  }

  /** The links found on the page at `url`. */
  function PageLinks(url: string, fetch: string -> Option<seq<Tag>>, join: (string, string) -> string): seq<string> {
    match fetch(url)
    case None => []
    case Some(tags) => SelectLinks(url, tags, join)
  }

  /**
   * The fragment of the "hash" page URL for `path`: "/#" + path, or the path
   * itself when it already starts with "#".
   */
  function HashFragment(path: string): (r: string)
    ensures EndsWith(r, path)
    ensures r == path <==> StartsWith(path, "#")
    ensures StartsWith(r, "#") || StartsWith(r, "/#")
    ensures !StartsWith(path, "#") ==> StartsWith(r, "/#")
    ensures |r| == |path| || |r| == |path| + 2
  {
    if StartsWith(path, "#") then path else "/#" + path
  }

  /** All links found on the pages at `urls`, pooled into one set. */
  function PooledLinks(urls: seq<string>, fetch: string -> Option<seq<Tag>>, join: (string, string) -> string): set<string> {
    if urls == [] then {}
    else PooledLinks(urls[..|urls| - 1], fetch, join) + Elems(PageLinks(urls[|urls| - 1], fetch, join))
  }

  /** The page at `url` lists `link`. */
  predicate Lists(url: string, fetch: string -> Option<seq<Tag>>, join: (string, string) -> string, link: string) {
    link in PageLinks(url, fetch, join)
  }

  /** A link no page of the prefix lists, and the last page does not list, is listed by no page. */
  lemma ListedNowhere(urls: seq<string>, init: seq<string>, fetch: string -> Option<seq<Tag>>, join: (string, string) -> string, link: string)
    requires urls != [] && init == urls[..|urls| - 1]
    requires forall i :: 0 <= i < |init| ==> !Lists(init[i], fetch, join, link)
    requires !Lists(urls[|urls| - 1], fetch, join, link)
    ensures forall i :: 0 <= i < |urls| ==> !Lists(urls[i], fetch, join, link)
  {
    forall i | 0 <= i < |urls| ensures !Lists(urls[i], fetch, join, link) {
      if i < |init| {
        assert urls[i] == init[i];
      }
    }
  }

  /** A link is pooled exactly when one of the pages lists it. */
  lemma {:induction false} PooledLinksExactly(urls: seq<string>, fetch: string -> Option<seq<Tag>>, join: (string, string) -> string, link: string)
    ensures link in PooledLinks(urls, fetch, join) <==> exists i :: 0 <= i < |urls| && Lists(urls[i], fetch, join, link)
  {
    if urls != [] {
      var init, last := urls[..|urls| - 1], urls[|urls| - 1];
      var earlier, here := PooledLinks(init, fetch, join), Elems(PageLinks(last, fetch, join));
      assert PooledLinks(urls, fetch, join) == earlier + here;
      PooledLinksExactly(init, fetch, join, link);
      if link in here {
        assert 0 <= |urls| - 1 < |urls| && Lists(urls[|urls| - 1], fetch, join, link);
      } else if link in earlier {
        var i :| 0 <= i < |init| && Lists(init[i], fetch, join, link);
        assert urls[i] == init[i];
      } else {
        ListedNowhere(urls, init, fetch, join, link);
      }
    }
  }

  lemma PooledLinksAppend(urls: seq<string>, more: seq<string>, fetch: string -> Option<seq<Tag>>, join: (string, string) -> string)
    ensures PooledLinks(urls + more, fetch, join) == PooledLinks(urls, fetch, join) + PooledLinks(more, fetch, join)
  {
    forall link ensures link in PooledLinks(urls + more, fetch, join) <==> link in PooledLinks(urls, fetch, join) + PooledLinks(more, fetch, join) {
      var all := urls + more;
      PooledLinksExactly(all, fetch, join, link);
      PooledLinksExactly(urls, fetch, join, link);
      PooledLinksExactly(more, fetch, join, link);
      if exists i :: 0 <= i < |all| && Lists(all[i], fetch, join, link) {
        var i :| 0 <= i < |all| && Lists(all[i], fetch, join, link);
        if i >= |urls| {
          assert more[i - |urls|] == all[i];
        } else {
          assert urls[i] == all[i];
        }
      }
      if exists i :: 0 <= i < |more| && Lists(more[i], fetch, join, link) {
        var i :| 0 <= i < |more| && Lists(more[i], fetch, join, link);
        assert all[|urls| + i] == more[i];
      }
      if exists i :: 0 <= i < |urls| && Lists(urls[i], fetch, join, link) {
        var i :| 0 <= i < |urls| && Lists(urls[i], fetch, join, link);
        assert all[i] == urls[i];
      }
    }
  }

  /**
   * The URLs `construct_and_request_urls` requests, in order: the direct URL
   * of every path, then the hash URL of every path.
   */
  function CandidateUrls(paths: seq<string>, directUrl: string -> string, hashUrl: string -> string): (urls: seq<string>)
    ensures |urls| == 2 * |paths|
    ensures forall i :: 0 <= i < |paths| ==>
              urls[i] == directUrl(paths[i]) && urls[|paths| + i] == hashUrl(HashFragment(paths[i]))
  {
    seq(|paths|, i requires 0 <= i < |paths| => directUrl(paths[i]))
      + seq(|paths|, i requires 0 <= i < |paths| => hashUrl(HashFragment(paths[i])))
  }

  /** Requests each page of `urls` in turn and adds the links it lists to `links`. */
  method PoolPages(links: set<string>, urls: seq<string>, fetch: string -> Option<seq<Tag>>, join: (string, string) -> string)
    returns (pooled: set<string>)
    ensures pooled == links + PooledLinks(urls, fetch, join)
  {
    pooled := links;
    for i := 0 to |urls|
      invariant pooled == links + PooledLinks(urls[..i], fetch, join)
    {
      var found := ExtractJsLinks(urls[i], fetch(urls[i]), join);
      PooledStep(urls, i, fetch, join);
      pooled := pooled + Elems(found);
    }
    assert urls[..|urls|] == urls;
  }

  lemma PooledStep(urls: seq<string>, i: nat, fetch: string -> Option<seq<Tag>>, join: (string, string) -> string)
    requires i < |urls|
    ensures PooledLinks(urls[..i + 1], fetch, join) == PooledLinks(urls[..i], fetch, join) + Elems(PageLinks(urls[i], fetch, join))
  {
    assert urls[..i + 1][..i] == urls[..i];
  }

  /** The two URLs built for each path, in path order: the direct one and the "hash" one. */
  method CandidateLists(paths: seq<string>, directUrl: string -> string, hashUrl: string -> string)
    returns (directs: seq<string>, hashes: seq<string>)
    ensures |directs| == |paths| && |hashes| == |paths|
    ensures forall i :: 0 <= i < |paths| ==> directs[i] == directUrl(paths[i]) && hashes[i] == hashUrl(HashFragment(paths[i]))
  {
    directs, hashes := [], [];
    for i := 0 to |paths|
      invariant |directs| == i && |hashes| == i
      invariant forall k :: 0 <= k < i ==> directs[k] == directUrl(paths[k]) && hashes[k] == hashUrl(HashFragment(paths[k]))
    {
      directs := directs + [directUrl(paths[i])];
      hashes := hashes + [hashUrl(HashFragment(paths[i]))];
    }
  }

  /**
   * The request part of `construct_and_request_urls`: for every path, a direct
   * URL (`urljoin` of the site root and the path) and a hash URL (the target
   * URL with its fragment replaced by `HashFragment(path)`); then every direct
   * URL and every hash URL is requested and the script links found are pooled
   * into one set.
   */
  method CollectNewLinks(
    paths: seq<string>,
    directUrl: string -> string,
    hashUrl: string -> string,
    fetch: string -> Option<seq<Tag>>,
    join: (string, string) -> string)
    returns (directs: seq<string>, hashes: seq<string>, links: set<string>)
    ensures |directs| == |paths| && |hashes| == |paths|
    ensures forall i :: 0 <= i < |paths| ==> directs[i] == directUrl(paths[i]) && hashes[i] == hashUrl(HashFragment(paths[i]))
    ensures links == PooledLinks(directs + hashes, fetch, join)
  {
    directs, hashes := CandidateLists(paths, directUrl, hashUrl);
    var fromDirects := PoolPages({}, directs, fetch, join);
    links := PoolPages(fromDirects, hashes, fetch, join);
    PooledLinksAppend(directs, hashes, fetch, join);
  }

  /**
   * `construct_and_request_urls`: pool the links found from the candidate
   * URLs of `paths`, then download each of them into the directory; returns
   * the names of the files written.
   */
  method ConstructAndRequest(
    dir: FileNames.Directory,
    paths: seq<string>,
    directUrl: string -> string,
    hashUrl: string -> string,
    fetch: string -> Option<seq<Tag>>,
    join: (string, string) -> string,
    pathOf: string -> string,
    downloaded: string -> bool)
    returns (newFiles: seq<string>, ghost ok: seq<string>)
    modifies dir
    ensures IsEnumeration(ok, FileNames.Succeeded(PooledLinks(CandidateUrls(paths, directUrl, hashUrl), fetch, join), downloaded))
    ensures FileNames.NamedInTurn(pathOf, old(dir.names), ok, newFiles)
    ensures |newFiles| == |FileNames.Succeeded(PooledLinks(CandidateUrls(paths, directUrl, hashUrl), fetch, join), downloaded)|
    ensures forall i :: 0 <= i < |newFiles| ==> newFiles[i] !in old(dir.names)
    ensures forall i, j :: 0 <= i < j < |newFiles| ==> newFiles[i] != newFiles[j]
    ensures dir.names == old(dir.names) + Elems(newFiles)
  {
    var directs, hashes, links := CollectNewLinks(paths, directUrl, hashUrl, fetch, join);
    assert directs + hashes == CandidateUrls(paths, directUrl, hashUrl);
    newFiles, ok := dir.SaveAll(links, pathOf, downloaded);
  }
}
