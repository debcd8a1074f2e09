/**
 * The result extractor of `search` in src/tool.ts: for every `.knowledge_item` node of the
 * result list, the five fields of a `SearchResult`, computed from what the browser read.
 *
 * The reads themselves (locators, roles, `textContent`, `getAttribute`) happen in the browser;
 * here each read is an input, `None` standing for `null`.
 */
module Extractor {
  import opened Wrappers
  import opened Seqs
  import opened JsString
  import opened WrittenByPattern

  /** What the browser reads for one `.knowledge_item` node. */
  datatype RawItem = RawItem(
    /** text of `.list-title` inside the `.insert_info` link named like "#12 ..." */
    titleText: Option<string>,
    /** `href` attribute of that link */
    href: Option<string>,
    /** text of the first `div > a` directly under `.insert_info` */
    authorText: Option<string>,
    /** text of the node whose text matches /written by .+ at/ */
    dateText: Option<string>,
    /** text of every `.item-info a span.tag.label.label-info` node, in document order */
    tagTexts: seq<Option<string>>)

  /** One knowledge article as the tool reports it; `url` is still relative here. */
  datatype SearchResult = SearchResult(author: string, createdAt: string, tags: seq<string>, title: string, url: string)

  /**
   * `text?.trim().replace(/[\n\s]+/, ' ') || ''`: "" for a missing node; otherwise the trimmed
   * text with its first white-space run turned into one space (`ReplaceFirstSpaceRun` and `Trim`
   * characterise both steps for every input). The title never starts or ends
   * with white space, and it is empty exactly when the text is missing or all white space.
   */
  function NormTitle(text: Option<string>): (title: string)
    ensures text.None? ==> title == ""
    ensures text.Some? ==> title == ReplaceFirstSpaceRun(Trim(text.value))
    ensures text.Some? ==> (title == "" <==> AllSpace(text.value))
    ensures Trimmed(title)
  {
    match text
    case None => OrEmpty(None)
    case Some(t) =>
      ReplaceKeepsTrimmed(Trim(t));
      OrEmpty(Some(ReplaceFirstSpaceRun(Trim(t))))
  }

  /** Replacing an inner white-space run of a trimmed string keeps it trimmed and non-empty. */
  lemma ReplaceKeepsTrimmed(t: string)
    requires Trimmed(t)
    ensures Trimmed(ReplaceFirstSpaceRun(t))
    ensures ReplaceFirstSpaceRun(t) == "" <==> t == ""
  {
    var r := ReplaceFirstSpaceRun(t);
    if !NoSpace(t) {
      var i, j :| 0 <= i < j <= |t| && NoSpace(t[..i]) && AllSpace(t[i..j])
        && (j == |t| || !IsSpace(t[j])) && r == t[..i] + " " + t[j..];
      assert !IsSpace(t[0]) && IsSpace(t[i..j][0]);
      assert 0 < i;
      assert !IsSpace(t[|t| - 1]) && IsSpace(t[i..j][j - 1 - i]);
      assert j < |t|;
      assert r[0] == t[0];
      assert r[|r| - 1] == t[|t| - 1];
    }
  }

  /** `(await tagEl.textContent()) || ''` for every tag node: one tag per node, in order. */
  function ExtractTags(texts: seq<Option<string>>): (tags: seq<string>)
    ensures |tags| == |texts|
    ensures forall i :: 0 <= i < |texts| ==> tags[i] == texts[i].GetOr("")
  {
    MapSeq(OrEmpty, texts)
  }

  /**
   * The record built for one item. A missing or empty href, author or tag text gives "", and
   * the author is not trimmed; the title is the normalised title text; `createdAt` is group 1
   * of the pattern's first match in the date text (`ParseCreatedAt`), and "" exactly when the
   * date text is missing or the pattern matches nowhere in it.
   */
  function ExtractItem(raw: RawItem): (r: SearchResult)
    ensures r.url == raw.href.GetOr("")
    ensures r.author == raw.authorText.GetOr("")
    ensures |r.tags| == |raw.tagTexts|
    ensures forall i :: 0 <= i < |raw.tagTexts| ==> r.tags[i] == raw.tagTexts[i].GetOr("")
    ensures r.title == NormTitle(raw.titleText)
    ensures Trimmed(r.title)
    ensures r.title == "" <==> raw.titleText.None? || AllSpace(raw.titleText.value)
    ensures r.createdAt == ParseCreatedAt(raw.dateText.GetOr(""))
    ensures r.createdAt == "" <==> raw.dateText.None? || NoMatch(raw.dateText.value)
  {
    var title := NormTitle(raw.titleText);
    var url := OrEmpty(raw.href);
    var author := OrEmpty(raw.authorText);
    var createdText := OrEmpty(raw.dateText);
    var createdAt := ParseCreatedAt(createdText);
    assert raw.dateText.None? ==> NoMatch(createdText) by {
      if raw.dateText.None? {
        ParseWithoutLead(createdText);
      }
    }
    var tags := ExtractTags(raw.tagTexts);
    SearchResult(author, createdAt, tags, title, url)
  }

  /**
   * `items.map(...)` over the matched `.knowledge_item` nodes: exactly one record per node, in
   * document order; a node whose reads all came back empty still yields a record.
   */
  function ExtractAll(items: seq<RawItem>): (results: seq<SearchResult>)
    ensures |results| == |items|
    ensures forall i :: 0 <= i < |items| ==> results[i] == ExtractItem(items[i])
  {
    MapSeq(ExtractItem, items)
  }

  /** Extraction works node by node: the records of two runs of nodes are those of each run, in order. */
  lemma ExtractAllAppend(xs: seq<RawItem>, ys: seq<RawItem>)
    ensures ExtractAll(xs + ys) == ExtractAll(xs) + ExtractAll(ys)
  {
    MapSeqAppend(ExtractItem, xs, ys);
  }

  /** A node where every read came back null is still reported, with every field empty. */
  lemma ExtractEmptyItem(tagCount: nat)
    ensures ExtractItem(RawItem(None, None, None, None, seq(tagCount, _ => None)))
      == SearchResult("", "", seq(tagCount, _ => ""), "", "")
  {
    var r := ExtractItem(RawItem(None, None, None, None, seq(tagCount, _ => None)));
    assert r.tags == seq(tagCount, _ => "");
  }

  /** A title with no white space at all comes out exactly as it was read. */
  lemma NormTitleWithoutSpace(text: string)
    requires NoSpace(text)
    ensures NormTitle(Some(text)) == text
  {
    TrimOfTrimmed(text);
  }

  /**
   * Only the FIRST white-space run of the trimmed title becomes one space: for
   * "<a><gap1><b><gap2><c>" the title is "<a> <b><gap2><c>", the second run left as it was.
   */
  lemma NormTitleKeepsLaterRuns(a: string, gap1: string, b: string, gap2: string, c: string)
    requires a != "" && b != "" && c != "" && NoSpace(a) && NoSpace(b) && NoSpace(c)
    requires gap1 != "" && gap2 != "" && AllSpace(gap1) && AllSpace(gap2)
    ensures NormTitle(Some(a + gap1 + b + gap2 + c)) == a + " " + (b + gap2 + c)
  {
    var rest := b + gap2 + c;
    var t := a + gap1 + rest;
    assert a + gap1 + b + gap2 + c == t;
    assert rest[0] == b[0] && rest[|rest| - 1] == c[|c| - 1];
    assert t[0] == a[0] && t[|t| - 1] == rest[|rest| - 1];
    assert Trimmed(t);
    TrimOfTrimmed(t);
    ReplaceRunBefore(a, gap1, rest);
    assert NormTitle(Some(t)) == OrEmpty(Some(a + " " + rest));
  }

  /** The item of the tests: every node present, each text as the mock returns it. */
  lemma ExtractTestFixture()
    ensures ExtractItem(RawItem(Some("テストタイトル"), Some("/test-article"), Some("テスト著者"),
                                Some("written by テスト著者 at 2025-01-01 12:00:00"), [Some("タグ1")]))
      == SearchResult("テスト著者", "2025-01-01 12:00:00", ["タグ1"], "テストタイトル", "/test-article")
  {
    var title := "テストタイトル";
    assert NoSpace(title);
    NormTitleWithoutSpace(title);
    ParseTestFixture();
  }
}
