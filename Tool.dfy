/**
 * The tool side of src/tool.ts: the search-page URL, and the `knowledge-search` callback's
 * formatting of the extracted records into `{ items, total }`.
 */
module Tool {
  import opened Wrappers
  import opened Seqs
  import opened Extractor

  /** The path of the target site's search page. */
  const SearchPath: string := "/open.knowledge/list"

  /** `getSearchUrl(baseUrl)`: the base URL followed verbatim by the search path. */
  function SearchUrl(baseUrl: string): (url: string)
    ensures |url| == |baseUrl| + |SearchPath|
    ensures url[..|baseUrl|] == baseUrl && url[|baseUrl|..] == SearchPath
  {
    baseUrl + SearchPath
  }

  /** Different base URLs give different search pages. */
  lemma SearchUrlInjective(u: string, v: string)
    requires SearchUrl(u) == SearchUrl(v)
    ensures u == v
  {
    assert u == SearchUrl(u)[..|u|];
  }

  /** The two base URLs of the tests. */
  lemma SearchUrlExamples()
    ensures SearchUrl("https://example.com") == "https://example.com/open.knowledge/list"
    ensures SearchUrl("http://localhost:3000") == "http://localhost:3000/open.knowledge/list"
  {
  }

  /** The structured content of the tool's answer. */
  datatype ToolOutput = ToolOutput(items: seq<SearchResult>, total: nat)

  /**
   * The arrow of `results.map(...)`: the base URL is put in front of the scraped url exactly as
   * it is (no slash is added or removed, and an empty url gives the base URL); the other four
   * fields pass through.
   */
  function Absolute(baseUrl: string, r: SearchResult): (f: SearchResult)
    ensures f.author == r.author && f.createdAt == r.createdAt && f.tags == r.tags && f.title == r.title
    ensures |f.url| == |baseUrl| + |r.url|
    ensures f.url[..|baseUrl|] == baseUrl && f.url[|baseUrl|..] == r.url
  {
    SearchResult(r.author, r.createdAt, r.tags, r.title, baseUrl + r.url)
  }

  /** The record a formatted one came from: its url with the base URL taken off the front. */
  function Relative(baseUrl: string, f: SearchResult): (r: Option<SearchResult>)
    ensures r.Some? <==> |baseUrl| <= |f.url| && f.url[..|baseUrl|] == baseUrl
    ensures r.Some? ==> r.value.url == f.url[|baseUrl|..] && r.value.(url := f.url) == f
  {
    if |baseUrl| <= |f.url| && f.url[..|baseUrl|] == baseUrl then
      Some(f.(url := f.url[|baseUrl|..]))
    else
      None
  }

  /** Formatting loses nothing: the record is recovered from its formatted form. */
  lemma RelativeOfAbsolute(baseUrl: string, r: SearchResult)
    ensures Relative(baseUrl, Absolute(baseUrl, r)) == Some(r)
  {
  }

  /** And every record that `Relative` recovers formats back to the record it came from. */
  lemma AbsoluteOfRelative(baseUrl: string, f: SearchResult)
    requires Relative(baseUrl, f).Some?
    ensures Absolute(baseUrl, Relative(baseUrl, f).value) == f
  {
    var r := Relative(baseUrl, f).value;
    assert baseUrl + r.url == f.url;
  }

  /**
   * `{ items: results.map(...), total: formattedResults.length }`: one formatted record per
   * result, in order, and `total` is the number of records.
   */
  function Format(baseUrl: string, results: seq<SearchResult>): (out: ToolOutput)
    ensures |out.items| == |results| && out.total == |results|
    ensures forall i :: 0 <= i < |results| ==> out.items[i] == Absolute(baseUrl, results[i])
  {
    var items := MapSeq(r => Absolute(baseUrl, r), results);
    ToolOutput(items, |items|)
  }

  /** Formatting can be undone record by record. */
  lemma FormatRecoversResults(baseUrl: string, results: seq<SearchResult>)
    ensures forall i :: 0 <= i < |results| ==> Relative(baseUrl, Format(baseUrl, results).items[i]) == Some(results[i])
  {
    forall i | 0 <= i < |results| {
      RelativeOfAbsolute(baseUrl, results[i]);
    }
  }

  /**
   * The callback's answer once the browser has read the matched nodes: the records of
   * `ExtractAll`, formatted. The browser session that produced `nodes` is not part of this model.
   */
  function Respond(baseUrl: string, nodes: seq<RawItem>): (out: ToolOutput)
    ensures out.total == |nodes| && |out.items| == |nodes|
  {
    Format(baseUrl, ExtractAll(nodes))
  }

  /**
   * What the caller of the tool sees of each matched node: its absolute url, and the other four
   * fields just as the extractor made them; no node is dropped or reordered.
   */
  lemma RespondItems(baseUrl: string, nodes: seq<RawItem>, i: nat)
    requires i < |nodes|
    ensures Respond(baseUrl, nodes).items[i].url == baseUrl + nodes[i].href.GetOr("")
    ensures Respond(baseUrl, nodes).items[i].(url := ExtractItem(nodes[i]).url) == ExtractItem(nodes[i])
  {
    var r := ExtractItem(nodes[i]);
    assert Respond(baseUrl, nodes).items[i] == Absolute(baseUrl, r);
  }

  /** An empty result list is answered with no items and a total of 0. */
  lemma RespondNoNodes(baseUrl: string)
    ensures Respond(baseUrl, []) == ToolOutput([], 0)
  {
  }

  /** The test: the fixture node under base URL https://example.com gets url https://example.com/test-article. */
  lemma RespondTestFixture()
    ensures Respond("https://example.com",
      [RawItem(Some("テストタイトル"), Some("/test-article"), Some("テスト著者"),
               Some("written by テスト著者 at 2025-01-01 12:00:00"), [Some("タグ1")])])
      == ToolOutput([SearchResult("テスト著者", "2025-01-01 12:00:00", ["タグ1"], "テストタイトル",
                                  "https://example.com/test-article")], 1)
  {
    var node := RawItem(Some("テストタイトル"), Some("/test-article"), Some("テスト著者"),
                        Some("written by テスト著者 at 2025-01-01 12:00:00"), [Some("タグ1")]);
    var record := SearchResult("テスト著者", "2025-01-01 12:00:00", ["タグ1"], "テストタイトル", "/test-article");
    var base := "https://example.com";
    ExtractTestFixture();
    assert ExtractAll([node]) == [record];
    assert Respond(base, [node]).items == [Absolute(base, record)];
    assert Absolute(base, record) == record.(url := base + "/test-article");
    TestArticleUrl();
  }

  /** Helper for the test: the fixture's url under https://example.com, proved apart from the rest. */
  lemma TestArticleUrl()
    ensures "https://example.com" + "/test-article" == "https://example.com/test-article"
  {
  }
}
