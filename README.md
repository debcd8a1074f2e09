# knowledge-search: the result pipeline, in Dafny

The `knowledge-search` tool of this MCP server drives a headless browser through the search
page of a knowledge-base site. It reads each result node of the page and answers with
`{ items, total }`. The browser work is I/O. The logic it wraps is pure: it turns the strings
read from the page into records. This project models that logic and proves what it promises.
It has four parts:

- **Search URL**: `getSearchUrl` appends `/open.knowledge/list` to the base URL (`Tool.SearchUrl`).
- **Per-item fields**: the browser reads five things per `.knowledge_item` node: title text,
  link `href`, author text, the "written by … at …" text, and the tag texts. Each read is an
  `Option<string>` (`None` is JavaScript's `null`). From them `Extractor.ExtractItem` builds a
  `SearchResult`:
  - `title`: `trim()` and then a non-global `replace(/[\n\s]+/, ' ')`.
  - `url`, `author` and each tag: the read, or `""` when it is null or empty.
  - `createdAt`: group 1 of `/written by .+ at (.+?)(?:\s*\(|$)/`.
- **Result list**: `Extractor.ExtractAll` gives one record per node, in document order.
- **Formatting**: `Tool.Format` prefixes each url with the base URL verbatim and sets `total`
  to the number of records. `Tool.Respond` composes extraction and formatting.

The regular expression is modelled in full under the backtracking semantics of ECMA-262
(section 22.2, RegExp objects):

- the match starts at the leftmost position where one exists;
- the greedy `.+` takes the longest stretch that still lets the rest match, so the last
  feasible `" at "` wins;
- the lazy group is the shortest non-empty one followed by `\s*(` or by the end of the input;
- `.` stops at line terminators, and `\s` (ECMA-262 sections 12.2 and 12.3) includes them.

`WrittenByPattern.IsFirstMatch` states this match declaratively. `WrittenByPattern.Exec` is
the engine's search, written out and proved to return exactly that match, or none when
`NoMatch` holds.

Modules: `Wrappers` (Option), `Seqs` (`Array.prototype.map`), `JsString` (character classes,
`trim`, the first-run `replace`, `x || ''`), `WrittenByPattern`, `Extractor`, `Tool`.

The title's regular expression has no `g` flag, so only the first whitespace run of the
trimmed title becomes one space; later runs are kept (`Extractor.NormTitleKeepsLaterRuns`).

## Model

| member | source | states |
|---|---|---|
| `Tool.SearchUrl` | src/tool.ts:25-27 | the search URL is the base URL followed by exactly `/open.knowledge/list`: its prefix of the base URL's length is the base URL and the rest is the path |
| `Tool.SearchUrlInjective` | src/tool.ts:25-27 | different base URLs give different search URLs |
| `Tool.SearchUrlExamples` | src/tool.test.ts:113-114 | the two base URLs of the tests give the expected search URLs |
| `JsString.IsLineTerminator` | src/tool.ts:80 | LineTerminator of ECMA-262 section 12.3 (LF, CR, U+2028, U+2029): the characters `.` does not match |
| `JsString.IsWhiteSpace` | src/tool.ts:76 | WhiteSpace of ECMA-262 section 12.2: TAB, VT, FF, ZWNBSP, and the space separators (U+0020, U+00A0, U+1680, U+2000-U+200A, U+202F, U+205F, U+3000) |
| `JsString.IsSpace` | src/tool.ts:76 | the class `\s` and the set `trim` strips: WhiteSpace together with LineTerminator |
| `JsString.Trim` | src/tool.ts:76 | `trim()` removes a white-space prefix and suffix only: the result is an infix of the input, surrounded by white space, with no leading or trailing `\s`; it is empty iff the input is all white space |
| `JsString.TrimOfTrimmed` | src/tool.ts:76 | `trim` leaves a string without outer white space unchanged |
| `JsString.TrimIdempotent` | src/tool.ts:76 | `trim(trim(s)) == trim(s)` |
| `JsString.ReplaceFirstSpaceRun` | src/tool.ts:76 | non-global `replace(/[\n\s]+/, ' ')`: a string with no white space is unchanged; otherwise the result is `t[..i] + " " + t[j..]`, where `t[..i]` has no white space and `t[i..j]` is the first maximal run |
| `JsString.ReplaceRunBefore` | src/tool.ts:76 | for `head + gap + rest` with a white-space-free head and a whole run `gap`, the replace gives `head + " " + rest` |
| `JsString.FirstFrom` | src/tool.ts:76 | the index where a leftmost scan stops: no stop character before it, and a stop character at it unless it is the end |
| `JsString.FirstFromIs` | src/tool.ts:76 | any index with no stop character before it and a stop character at it is the one `FirstFrom` returns |
| `JsString.LastTo` | src/tool.ts:76 | the index where a scan back from the end stops: no stop character between it and the end, and a stop character just before it unless it is 0 |
| `JsString.OrEmpty` | src/tool.ts:77-78 | the `''` fallback on a string-or-null equals null-coalescing to `""`: a present string, even an empty one, is kept |
| `Extractor.NormTitle` | src/tool.ts:76 | the title is `""` for a missing node, and otherwise `ReplaceFirstSpaceRun(Trim(text))`: the trimmed text with only its first white-space run turned into one space; it never starts or ends with white space; it is empty iff the text is missing or all white space |
| `Extractor.ReplaceKeepsTrimmed` | src/tool.ts:76 | on trimmed text the first-run replacement keeps the text trimmed and non-empty |
| `Extractor.NormTitleWithoutSpace` | src/tool.ts:76 | a title text with no white space comes out unchanged |
| `Extractor.NormTitleKeepsLaterRuns` | src/tool.ts:76 | for `a + gap1 + b + gap2 + c` the title is `a + " " + (b + gap2 + c)`: only the first run is replaced |
| `WrittenByPattern.ParenAhead` | src/tool.ts:80 | `\s*\(` matches at an index: zero or more `\s` characters, then `(` |
| `WrittenByPattern.TailAt` | src/tool.ts:80 | the non-capturing tail (a `\s*\(` or a `$` alternative) matches at an index: `\s*\(` does, or the index is the end of the input (no `m` flag) |
| `WrittenByPattern.MatchAt` | src/tool.ts:80 | the whole pattern matches with `written by ` at p, a non-empty `.+` up to a `" at "` at q, and a non-empty one-line group from after it to e, followed by the tail |
| `WrittenByPattern.IsFirstMatch` | src/tool.ts:80 | the match the engine reports: the leftmost start, then at that start the longest `.+`, then for it the shortest group |
| `WrittenByPattern.LineEnd` | src/tool.ts:80 | where a greedy `.+` stops: `.` can consume everything before it and nothing that reaches past it |
| `WrittenByPattern.LazyGroup` | src/tool.ts:80 | the lazy `(.+?)` then the tail: returns the shortest group end at or after `e` that matches, or reports that none does |
| `WrittenByPattern.BacktrackDots` | src/tool.ts:80 | the greedy `.+` with backtracking: returns the match with the longest `.+` not beyond `q`, with the shortest group for it, or reports that none exists |
| `WrittenByPattern.MatchHere` | src/tool.ts:80 | the attempt at one start position: the longest `.+` and then the shortest group, or no match starting there |
| `WrittenByPattern.MatchFrom` | src/tool.ts:80 | the scan over start positions: the leftmost match at or after `p`, with the longest `.+` and shortest group there, or no match at or after `p` |
| `WrittenByPattern.Exec` | src/tool.ts:80 | `match` returns exactly the span `IsFirstMatch` describes (leftmost, longest `.+`, shortest group), or none iff the pattern matches nowhere |
| `WrittenByPattern.ParseCreatedAt` | src/tool.ts:80 | `createdAt` is `""` iff the pattern matches nowhere, and otherwise is the text of group 1 of the engine's match |
| `WrittenByPattern.FirstMatchUnique` | src/tool.ts:80 | the leftmost, longest-`.+`, shortest-group match is unique |
| `WrittenByPattern.ParseOfFirstMatch` | src/tool.ts:80 | whenever a span is the engine's match, `createdAt` is its group's text |
| `WrittenByPattern.CreatedAtShape` | src/tool.ts:80 | a non-empty `createdAt` is an infix of the text right after `" at "`; it holds no line terminator and is followed by the end or by `\s*(` |
| `WrittenByPattern.NoParenNoParenAhead` | src/tool.ts:80 | `\s*\(` cannot match where no `(` lies ahead |
| `WrittenByPattern.ParenAfterSpaces` | src/tool.ts:80 | `\s*\(` matches before white space followed by `(` |
| `WrittenByPattern.NoParenAhead` | src/tool.ts:80 | `\s*\(` fails when a character that is neither white space nor `(` comes first |
| `WrittenByPattern.NoLaterSep` | src/tool.ts:80 | with no `a` after a `" at "`, no later `" at "` exists for the greedy `.+` to reach |
| `WrittenByPattern.ParseOfLayout` | src/tool.ts:80 | for text with "written by " at the start, `.+` up to a `" at "` with no `" at "` after it, and the first place after it where the tail matches, `createdAt` is the text between them |
| `WrittenByPattern.ParseWrittenByAt` | src/tool.ts:80 | `"written by <author> at <date>"` gives `<date>` when the date has no line terminator, `(` or `a`; the author may be any one-line text |
| `WrittenByPattern.ParseTestFixture` | src/tool.test.ts:13 | the test's text `written by テスト著者 at 2025-01-01 12:00:00` gives `2025-01-01 12:00:00` |
| `WrittenByPattern.ParseGreedyLastAt` | src/tool.ts:80 | with two `" at "`s the group starts after the last one |
| `WrittenByPattern.ParseDropsParenthetical` | src/tool.ts:80 | a trailing `<spaces>(…` after the date is dropped, and the date is returned |
| `WrittenByPattern.ParseWithoutLead` | src/tool.ts:79-80 | text with no `written by ` anywhere, including the `""` a missing node gives, yields `""` and no error |
| `Seqs.MapSeq` | src/tool.ts:67-68 | `xs.map(f)`: one output per input, the i-th being `f(xs[i])` |
| `Seqs.MapSeqAppend` | src/tool.ts:67-68 | mapping distributes over concatenation |
| `Extractor.ExtractTags` | src/tool.ts:81 | one tag per tag node, in order; a null or empty text gives `""` |
| `Extractor.ExtractItem` | src/tool.ts:76-83 | `url` and `author` are the reads (not trimmed), or `""` when missing; tags as above; the title is `NormTitle` of its text, so it is trimmed, and it is empty iff its text is missing or all white space; `createdAt` is `ParseCreatedAt` of the date text (group 1 of the first match), and it is `""` iff the date text is missing or the pattern matches nowhere in it |
| `Extractor.ExtractAll` | src/tool.ts:65-87 | exactly one record per matched node, the i-th built from the i-th node |
| `Extractor.ExtractAllAppend` | src/tool.ts:65-87 | extraction of two runs of nodes is the concatenation of their extractions: document order is kept |
| `Extractor.ExtractEmptyItem` | src/tool.ts:76-83 | a node whose reads were all null still yields a record: author, createdAt, title and url are `""`, and there is one `""` tag per tag node |
| `Extractor.ExtractTestFixture` | src/tool.test.ts:10-36 | the test's mocked node yields author, timestamp, tag, title and url as read |
| `Tool.Absolute` | src/tool.ts:100-106 | the formatted url is the base URL followed verbatim by the scraped url; the other four fields are unchanged |
| `Tool.Relative` | src/tool.ts:105 | the inverse of `Absolute`: defined iff the url starts with the base URL, and then gives that url without it |
| `Tool.RelativeOfAbsolute` | src/tool.ts:100-106 | formatting a record loses nothing: `Relative` recovers it |
| `Tool.AbsoluteOfRelative` | src/tool.ts:100-106 | a record that `Relative` recovers formats back to the one it came from |
| `Tool.Format` | src/tool.ts:100-111 | one formatted record per result, in order, and `total` equals the number of results |
| `Tool.FormatRecoversResults` | src/tool.ts:100-111 | every result can be recovered from its formatted record |
| `Tool.Respond` | src/tool.ts:99-111 | the answer has exactly one item per matched node and `total` equal to that count |
| `Tool.RespondItems` | src/tool.ts:99-111 | the i-th item has url `base + href` (`""` when missing) and the other fields of the i-th node's record |
| `Tool.RespondNoNodes` | src/tool.ts:99-111 | no matched nodes give no items and `total` 0 |
| `Tool.RespondTestFixture` | src/tool.test.ts:189-212 | the test's node under `https://example.com` is answered with url `https://example.com/test-article` and total 1 |

## Left out

- Browser session lifecycle (src/tool.ts:29-46): launching Chromium, opening a page and closing the browser on scope exit. This is I/O against an external process through a library that is not part of this model.
- Navigation and interaction (src/tool.ts:48-63): `goto` with its 30 s timeout, waiting for the search box, `fill`, `click` and waiting for `#knowledgeList`. These are browser I/O, and their timeout failures propagate to the caller without being modelled.
- DOM lookups (`locator`, `getByRole`, `getByText`, `first`, `all`, `textContent`, `getAttribute`): each read is an `Option<string>` input of `RawItem`. Playwright waits, and may time out, when a read finds no node; that library behaviour is not modelled.
- `Promise.all` (src/tool.ts:67, 81): only scheduling. The model keeps its observable result, the order-preserving map.
- Tool registration and the zod schemas (src/tool.ts:10-17, 90-98): calls into the MCP SDK and zod. The only input constraint is that `keyword` is a string, and the keyword only reaches the browser.
- The text content block (src/tool.ts:113-121): `JSON.stringify(formattedResults, null, 2)` is library serialisation, so only the structured content `{ items, total }` is modelled.
- src/server.ts (stdio transport), src/cli.ts (argument parsing, process exit) and vitest.config.ts are not part of this model.
- Strings are sequences of Unicode scalar values, while JavaScript uses UTF-16 code units. Every white-space and line-terminator character is in the Basic Multilingual Plane, and the group never ends inside a surrogate pair, so both views give the same results.
- `Tool.Respond`: the search it composes takes the already-read nodes as input. The keyword, the page and the base URL's use in navigation are not part of it.
- `WrittenByPattern.ParseWrittenByAt`, `WrittenByPattern.ParseGreedyLastAt` and `WrittenByPattern.ParseDropsParenthetical`: these state sufficient conditions for typical layouts, not all inputs. `ParseCreatedAt` and `CreatedAtShape` cover all inputs.
