# takahashi.js: slide parser, emphasis marks, line-length estimates and page stepping

takahashi.js turns a small Markdown-like text into Takahashi-method slides in the browser. This
project models the logic at its core, in src/takahashi.js, and proves properties of that model.

- **The slide parser** (`Parser.prototype.__parse` and `processCodeBlock`) reads lines one by one
  and builds a list of slide records:
  - `# title` opens a normal slide;
  - `# ![](url)` opens a fullscreen-image slide;
  - `![](url)` turns the previous slide into an image-and-title slide;
  - `- text` sets the previous slide's subtitle;
  - a line starting with three backticks opens a code block, whose lines are collected verbatim
    up to the next such line;
  - every other line is skipped.

  The source recurses on the tail of the line list and mutates one shared array. The model is the
  method `Parser.ParseLines`, a loop over the lines that keeps a slide sequence and a code-block
  flag. It is proved equal to the specification function `Parser.Parse`, a fold of the one-line
  step `Parser.Step`. The properties below are proved about that function.

- **Emphasis marks** (`processEmphasisMarks`) are four regular-expression replacements:
  - `**w**` becomes `<b>w</b>`;
  - then `*w*` becomes `<i>w</i>`;
  - then `+w+` becomes `<s>w</s>`;
  - then two backslashes become `<br/>`.

  Module `Pattern` gives these JavaScript regular expressions their exact meaning:
  - a lazy `open(.+?)close` span whose content is non-empty and has no line terminator;
  - a leftmost, non-overlapping, left-to-right global replace;
  - `match` finds the leftmost match.

- **Line-length estimates** choose the initial font size:
  - `getHtmlStringMaxLineLength` applies to heading markup. It splits at `<br>`, drops tags and
    counts each pair of ASCII characters as one.
  - `getTextMaxLineLength` applies to code. It splits at newlines and counts CJK and fullwidth
    characters twice.

- **Page stepping**: the keyboard and touch handlers move the current page by one. The step
  happens only when both the target and the current page are among the available page numbers.
  From any other current page (one read from the URL hash, say), `switchSlide` fails on the
  missing slide element (src/takahashi.js:115) before it assigns the new page (line 118), so the
  page stays. The source keeps that state in two module-level variables.
  Here they are the fields of the class `Navigation.Navigator`, whose methods update them in place.

Thrown exceptions become `Err` results of `Parser.ParseError`. Line numbers count from 0. There
are three errors:
- an image line that the image pattern does not match;
- an image or subtitle line with no slide before it;
- end of input inside a code block.

At end of input inside a code block, `processCodeBlock` reads `lines[0]` of an empty list and
throws (src/takahashi.js:69). The model follows the code, so such a document is an
`Err(UnterminatedFence)` (`ParserProperties.UnclosedFenceFails`).

## Model

| member | source | states |
|---|---|---|
| Parser.Step | src/takahashi.js:36-76 | No contract of its own. One line of the walk: `CodeLine` inside a code block, `ClassifyLine` outside one. Its properties are the `ParserProperties` lemmas from `StepChangesOnlyLast` to `OtherLinesIgnored`. |
| Parser.ClassifyLine | src/takahashi.js:38-65 | No contract of its own. The tests of `__parse` in the source's order: empty line, `# ![](`, `![](`, `# `, `- `, three backticks, anything else. Stated by `StepFailsExactly`, `FullscreenBeforeHeading`, `HeadingAddsNormal`, `ImageLineRetypesLast`, `SubtitleAttachesToLast`, `FenceOpens` and `OtherLinesIgnored`. |
| Parser.CodeLine | src/takahashi.js:68-76 | No contract of its own. One line of `processCodeBlock`: a fence line closes the block and drops the last character of the code; any other line is appended with a newline. Stated by `CodeLineAppends` and `CodeLineCloses`. |
| Parser.ParseFrom | src/takahashi.js:36-76 | No contract of its own. The tail-recursive walk from a given state: it stops at the first error and fails at end of input inside a code block. Stated by `ParseFromGrowth`, `CodeBodyAccumulates` and `UnclosedFenceFails`. |
| Parser.Parse | src/takahashi.js:30-36 | No contract of its own. `__parse(lines, [])`: the walk from no slides outside a code block. `ParseLines` is proved equal to it, and `ParseCountsOpeners` gives its slide count. |
| Parser.ParseDocument | src/takahashi.js:26-33 | No contract of its own. `parse()` on the text cut at every newline by `readLines`. `ParserExamples.HeadingWithSubtitle` states it on a whole document. |
| Parser.ImageUrl | src/takahashi.js:37-47 | No contract of its own. `head.match(imagePattern)[1]` is `Pattern.Capture` with `![](` and `)`, whose contract gives the captured URL. |
| Parser.DropLast | src/takahashi.js:71 | No contract of its own. `substring(0, length - 1)`, which leaves an empty text empty. Stated by `ParserProperties.DropLastAppend` and `DropLastTerminated`. |
| Parser.NormalSlide | src/takahashi.js:53 | No contract of its own. The record `{type: "normal", title}` that a `# ` line pushes, with every other field absent. `HeadingAddsNormal` states what the step pushes. |
| Parser.FullscreenSlide | src/takahashi.js:43 | No contract of its own. The record `{type: "fullscreen-image", imgUrl}` that a `# ![](` line pushes. `FullscreenBeforeHeading` states what the step pushes. |
| Parser.CodeSlide | src/takahashi.js:62 | No contract of its own. The record `{type: "codeblock", language, code}` that a fence line pushes, with empty code at first. `FenceOpens` and `CodeBlockJoinsLines` state how it fills. |
| Parser.ParseLines | src/takahashi.js:36-76 | The loop that walks the lines, pushing slides and assigning fields of the last one, returns exactly the specification parse of the lines: its slides, or the error at the line where the source throws. |
| Parser.SetLast | src/takahashi.js:48-49 | Assigning into `parsed[parsed.length - 1]` keeps the length, puts the new record last and leaves every earlier record as it was. |
| ParserProperties.PrefixesDisjoint | src/takahashi.js:41-60 | The prefixes `# `, `![](`, `- ` and three backticks exclude one another, and `# ![](` is a special case of `# `, so the order of the tests matters only between those two. |
| ParserProperties.StepChangesOnlyLast | src/takahashi.js:36-76 | One line adds exactly one slide when it is a heading or an opening fence read outside a code block, otherwise keeps the count. No slide before the last is changed, and an added slide leaves all earlier ones as they were. A fence line toggles code mode. |
| ParserProperties.StepFailsExactly | src/takahashi.js:41-59 | Outside a code block, a line fails exactly when it is an image line that the image pattern does not match, or an image or subtitle line with no previous slide. |
| ParserProperties.FullscreenBeforeHeading | src/takahashi.js:41-45 | A `# ![](` line makes a fullscreen-image slide, never a normal one. Its URL is the captured pattern group and it has no title. |
| ParserProperties.HeadingAddsNormal | src/takahashi.js:52-55 | Any other `# ` line appends a normal slide whose title is the emphasis-processed text after `# `, and it ends outside a code block. |
| ParserProperties.ImageLineRetypesLast | src/takahashi.js:46-51 | A successful `![](` line keeps the slide count and turns the last slide into an image-and-title slide with the captured URL. Its title, subtitle, language and code stay as they were. |
| ParserProperties.SubtitleAttachesToLast | src/takahashi.js:56-59 | With a previous slide, a `- ` line succeeds and sets only that slide's subtitle, to the emphasis-processed text. |
| ParserProperties.OtherLinesIgnored | src/takahashi.js:36-66 | Outside a code block, a line with none of the recognised prefixes (the empty line included) leaves the state unchanged. |
| ParserProperties.ParseFromGrowth | src/takahashi.js:36-76 | Over a successful walk, the slide count grows by the number of slide-opening lines read outside code blocks. No slide before the last one of the starting state ever changes. |
| ParserProperties.ParseCountsOpeners | src/takahashi.js:30-76 | A parsed document has as many slides as it has slide-opening lines outside code blocks. |
| ParserProperties.DropLastTerminated | src/takahashi.js:69-74 | Appending each code line with a newline and then removing the last character gives the lines joined by newlines. |
| ParserProperties.DropLastAppend | src/takahashi.js:71 | `substring(0, length - 1)` of a concatenation with a non-empty second part cuts that part only. |
| ParserProperties.CodeLineAppends | src/takahashi.js:74-75 | Inside a code block, a line not starting with three backticks is appended to the code with a newline, and the walk stays in code mode. |
| ParserProperties.CodeLineCloses | src/takahashi.js:69-72 | Inside a code block, a line starting with three backticks drops the last character of the code and leaves code mode. |
| ParserProperties.CodeBodyAccumulates | src/takahashi.js:68-76 | Inside a code block, every line up to the closing fence is appended verbatim, whatever markup it looks like. Then the walk resumes after the fence with the whole block's text. |
| ParserProperties.CodeBlockJoinsLines | src/takahashi.js:60-76 | A fenced block becomes one code-block slide. Its language is the rest of the opening line and its code is the inner lines joined by newlines. Parsing resumes after the closing fence, whatever follows the three backticks there. |
| ParserProperties.FenceOpens | src/takahashi.js:60-63 | Outside a code block, three backticks append an empty code-block slide whose language is the rest of the line, and enter code mode. |
| ParserProperties.UnclosedFenceFails | src/takahashi.js:68-76 | A code block with no closing fence after it makes the walk fail at end of input. |
| ParserExamples.HeadingWithSubtitle | src/takahashi.js:26-59 | The document "# title\n- sub\n" is one normal slide, with the processed title and subtitle. |
| ParserExamples.HeadingAndSubtitleLines | src/takahashi.js:52-59 | The lines "# title", "- sub" and "" give one normal slide with that title and subtitle. |
| ParserExamples.LinesOfTwoLineDocument | src/takahashi.js:27 | Two newline-free lines, each followed by "\n", split into those lines and a final empty line. |
| ParserExamples.HeadingStep | src/takahashi.js:52-55 | "# title" appends a normal slide with the processed title. |
| ParserExamples.SubtitleStep | src/takahashi.js:56-59 | "- sub" sets the processed subtitle on the last slide. |
| ParserExamples.ImageStep | src/takahashi.js:46-51 | "![](url)…" retypes the last slide as image-and-title with that URL. |
| ParserExamples.HeadingThenImage | src/takahashi.js:46-55 | "# title" then "![](url)…" is one image-and-title slide holding both the title and the URL. |
| ParserExamples.FullscreenImageAlone | src/takahashi.js:41-45 | "# ![](url)…" alone is one fullscreen-image slide with that URL, whatever follows the `)`. |
| ParserExamples.ImageFirstFails | src/takahashi.js:46-48 | An image line before any slide fails at line 0. |
| ParserExamples.FencedBlockAlone | src/takahashi.js:60-76 | A fenced block alone is one code-block slide whose code is the inner lines joined by newlines. |
| Emphasis.ProcessEmphasisMarks | src/takahashi.js:78-87 | No contract of its own. The bold, italic, strike and break rewrites in that order. Stated by `PlainTextUnchanged`, `ItalicWord`, `BoldWord`, `StrikeWord` and `ForcedBreak`. |
| Emphasis.BreakRewrite | src/takahashi.js:82-86 | No contract of its own. The global literal replace of two backslashes by `<br/>`. Stated by `BreakRewriteComplete`, `BreakRewriteIdempotent`, `PlainBreakUnchanged` and `BreakAfterPlain`. |
| Emphasis.BreakRewriteComplete | src/takahashi.js:86 | After the break rewrite, no two consecutive backslashes remain. |
| Emphasis.BreakRewriteIdempotent | src/takahashi.js:86 | Applying the break rewrite twice gives the same result as applying it once. |
| Emphasis.PlainTextUnchanged | src/takahashi.js:78-87 | Text with no `*`, `+` or backslash comes out of the emphasis rewrite unchanged. |
| Emphasis.PlainBreakUnchanged | src/takahashi.js:86 | Text with no backslash is unchanged by the break rewrite. |
| Emphasis.NoDoubleStar | src/takahashi.js:80-83 | `a*w*b` with plain `a`, `b` and a plain word `w` has no `**`, so the bold pass leaves it alone. |
| Emphasis.ItalicWord | src/takahashi.js:79-84 | `a*w*b` becomes `a<i>w</i>b` when `a`, `b` and the word `w` are plain. |
| Emphasis.BoldWord | src/takahashi.js:80-83 | `a**w**b` becomes `a<b>w</b>b` under the same conditions. |
| Emphasis.StrikeWord | src/takahashi.js:81-85 | `a+w+b` becomes `a<s>w</s>b` under the same conditions. |
| Emphasis.ForcedBreak | src/takahashi.js:82-86 | Two backslashes between plain texts become `<br/>`. |
| Emphasis.BreakAfterPlain | src/takahashi.js:86 | The break rewrite turns `a` + two backslashes + `b` into `a<br/>b` for plain `a` and `b`. |
| Pattern.ReplaceSpans | src/takahashi.js:83-85 | No contract of its own. `replace(/open(.+?)close/g, before + "$1" + after)`: from each leftmost match with the shortest content, left to right, without overlap. `ReplaceSpansNoMatch` and `ReplaceSpansAtFirstMatch` state its result for every text. |
| Pattern.RemoveSpans | src/takahashi.js:164 | No contract of its own. `replace(/<.+?>/g, "")`, the same search with the match deleted. Stated by `RemoveSpansShortens`, with `RemoveSpansAtSpan` for one removal. |
| Pattern.ReplaceLiteral | src/takahashi.js:86 | No contract of its own. A global replace of a literal pattern, left to right, without overlap. Stated by `ReplaceLiteralUnchanged` and the `BreakRewrite` lemmas. |
| Pattern.IsLineTerminator | src/takahashi.js:79-81 | No contract of its own. The four ECMAScript line terminators, which `.` in `(.+?)` does not match. `IsSpan` forbids them in a span's content, and `Capture` states it of a capture. |
| Pattern.SpanAt | src/takahashi.js:37 | At the start of a text, the lazy span is the shortest non-empty match, or None when no content length matches. |
| Pattern.FindSpan | src/takahashi.js:37 | The search finds the leftmost start at or after `from` where the pattern matches, with the shortest content there, or None when no start matches. |
| Pattern.Capture | src/takahashi.js:42 | `match(...)[1]` exists exactly when the pattern matches somewhere. When it exists, it is the content of the match `FindSpan` returns (the leftmost start, the shortest content there), and it is non-empty with no line terminator. |
| Pattern.FindSpanIsLeftmost | src/takahashi.js:42 | A match with no match before it and shortest content is the one the search returns. |
| Pattern.CaptureOfWord | src/takahashi.js:42 | After a prefix without the opening character, `open w close …` captures exactly `w`. |
| Pattern.SpanOfWord | src/takahashi.js:79-81 | `open w close …` matches with content exactly `w` when `w` is non-empty, has no line terminator and has no closing character. |
| Pattern.NoSpanInPlainPrefix | src/takahashi.js:83-85 | No match starts inside a prefix without the opening character. |
| Pattern.ReplaceSpansNoMatch | src/takahashi.js:83-85 | Where `match` finds no span anywhere, a global replace returns the text unchanged. |
| Pattern.ReplaceSpansAtFirstMatch | src/takahashi.js:83-85 | Where `match` finds its leftmost span at `p` with content length `n`, the span lies inside the text. The global replace copies the text before `p`, writes `before`, the content and `after`, and goes on after the closing delimiter. |
| Pattern.ReplaceSpansAtLeftmost | src/takahashi.js:83-85 | The same, for `p` and `n` given by their properties: no span before `p`, and `n` the shortest content at `p`. |
| Pattern.ReplaceSpansCopiesPrefix | src/takahashi.js:83-85 | A global replace copies unchanged a prefix at none of whose positions a span starts. |
| Pattern.ReplaceSpansAtShortest | src/takahashi.js:83-85 | At a text that starts with a span of shortest content `n`, the replace writes `before`, the content and `after`, and goes on after the closing delimiter. |
| Pattern.ReplaceSpansAtSpan | src/takahashi.js:83-85 | Where the lazy span matches at the start with content `n`, the replace writes `before`, the content and `after`, and goes on after the closing delimiter. |
| Pattern.SpanAtOfShortest | src/takahashi.js:37 | The converse of `SpanAt`'s contract: the shortest content with which the span matches at the start is the one `SpanAt` returns. |
| Pattern.FindSpanAfterFirst | src/takahashi.js:37 | When the leftmost match starts after position 0, the search on the text without its first character finds the same match, one position earlier. |
| Pattern.ReplaceSpansPlainPrefix | src/takahashi.js:83-85 | A global replace passes over a prefix without the opening character unchanged. |
| Pattern.ReplaceSpansUnchanged | src/takahashi.js:83-85 | A global replace changes nothing when the opening delimiter occurs nowhere. |
| Pattern.ReplaceSpansWithoutOpenChar | src/takahashi.js:83-85 | A global replace changes nothing when the opening character occurs nowhere. |
| Pattern.ReplaceSpansOfWord | src/takahashi.js:83-85 | After a plain prefix, `open w close rest` becomes `before w after` followed by the replaced rest. |
| Pattern.ReplaceSpansOfLeadingWord | src/takahashi.js:83-85 | At the start of a text, `open w close rest` becomes `before w after` followed by the replaced rest. |
| Pattern.RemoveSpansShortens | src/takahashi.js:164 | Removing tags never lengthens a line, and a line without `<` is unchanged. |
| Pattern.RemoveSpansAtSpan | src/takahashi.js:164 | Where the span matches at the start, it lies inside the text and is deleted, and the removal goes on after the closing delimiter. |
| Pattern.ReplaceLiteralUnchanged | src/takahashi.js:86 | A literal replace changes nothing when the pattern occurs nowhere. |
| Text.StartsWith | src/takahashi.js:41-69 | No contract of its own. `head.substring(0, k) === p`: `substring` clamps its end, so a line shorter than `p` never matches. `PrefixesDisjoint` and the step lemmas use it. |
| Text.Split | src/takahashi.js:27 | JavaScript `split` with a non-empty separator always gives at least one piece. `SplitThenJoin`, `JoinThenSplit` and `SplitPieces` give the pieces. |
| Text.Join | src/takahashi.js:27 | No contract of its own. The pieces with the separator between each two. It is the inverse of `Split` by `SplitThenJoin` and `JoinThenSplit`. |
| Text.IndexOf | src/takahashi.js:27 | The search returns the first occurrence at or after `from`, or None when there is none from there on. |
| Text.SplitThenJoin | src/takahashi.js:27 | Joining the pieces of a split with the separator gives back the text. |
| Text.JoinThenSplit | src/takahashi.js:27 | Splitting a join of one or more separator-free pieces at a one-character separator gives back the pieces. |
| Text.SplitPieces | src/takahashi.js:163 | No piece of a split is longer than the text or contains the separator. |
| Text.NoOccurrenceBeforeFirst | src/takahashi.js:163 | The text before the first separator does not contain it. |
| LineLength.IsAscii | src/takahashi.js:165 | No contract of its own. The class `[\x00-\x7F]`: a code unit below 0x80. `CollapseAllAscii` and `PlainAsciiHeading` use it. |
| LineLength.CollapseAsciiPairs | src/takahashi.js:165 | No contract of its own. `replace(/[\x00-\x7F]{2}/g, "x")`, pairing ASCII characters from the left. Stated by `CollapseBounds` and `CollapseAllAscii`. |
| LineLength.StripTags | src/takahashi.js:164 | No contract of its own. `replace(/<.+?>/g, "")`, which is `Pattern.RemoveSpans` on `<` and `>`. |
| LineLength.HtmlPieceLength | src/takahashi.js:163-167 | No contract of its own. The estimate of one `<br>` piece: tags removed, then ASCII pairs collapsed, then the length. `HtmlStringMaxLineLength` bounds it, and `CollapseBounds` and `RemoveSpansShortens` bound it by the piece's length. |
| LineLength.IsWide | src/takahashi.js:229 | No contract of its own. The four ranges of the character class: CJK ideographs, CJK punctuation and kana, fullwidth forms, fullwidth signs. `WidenLength` counts them. |
| LineLength.WidenWide | src/takahashi.js:229 | No contract of its own. Each code unit in the four wide ranges becomes `AA`. Stated by `WidenLength`. |
| LineLength.MaxOver | src/takahashi.js:163 | `Math.max` over the mapped pieces bounds every piece's measure and is attained by one of them. |
| LineLength.CollapseBounds | src/takahashi.js:165 | Collapsing ASCII pairs keeps at least half the length, rounded up, and never lengthens. |
| LineLength.CollapseAllAscii | src/takahashi.js:165 | An all-ASCII text of length n collapses to length ⌈n/2⌉. |
| LineLength.HtmlStringMaxLineLength | src/takahashi.js:162-168 | The result is the largest estimate over the `<br>`-separated pieces, each piece's tags stripped and ASCII pairs collapsed; some piece attains it, and it never exceeds the length of the markup. |
| LineLength.PlainAsciiHeading | src/takahashi.js:162-168 | A heading of n ASCII characters with no markup is estimated at ⌈n/2⌉. |
| LineLength.WidenLength | src/takahashi.js:229 | Widening lengthens a line by exactly its number of wide characters. |
| LineLength.LineWidth | src/takahashi.js:228-230 | The measured width of a code line is its length plus its number of wide characters. |
| LineLength.TextMaxLineLength | src/takahashi.js:227-232 | The result bounds the width of every newline-separated line, where a wide character counts twice, and some line attains it. |
| Navigation.KeyOffset | src/takahashi.js:171-173 | `{39: 1, 37: -1}[e.which]` is between -1 and 1, and is non-zero exactly for the two arrow keys. |
| Navigation.TouchOffset | src/takahashi.js:181 | The touch offset is never 0. It is +1 exactly when the touch is right of the middle of the window. |
| Navigation.Stepped | src/takahashi.js:172-182 | A step either stays on the current page or moves by exactly the offset. `SteppedStaysOnPages` says which, with `switchSlide` failing before its assignment (lines 115-118) from a current page that is not a page. |
| Navigation.Pages | src/takahashi.js:96-97 | The registered page numbers of n slides are 0 … n-1, each at its own index. |
| Navigation.SteppedStaysOnPages | src/takahashi.js:170-183 | A step moves by exactly the offset exactly when the offset is 0, or when both the current page and the target are pages. Otherwise the current page stays as it is, and always when the current page is not a page. A page shown stays a page, and a step that moves lands on a page. |
| Navigation.SteppedBackAndForth | src/takahashi.js:170-183 | From a page, a step forward that moves is undone by a step back, and the other way round. |
| Navigation.IndexTestIsMembership | src/takahashi.js:175 | `to in availablePageNumbers` tests indices, which here agrees with membership of the value. |
| Navigation.Navigator.constructor | src/takahashi.js:89-97 | After construction, the available pages are 0 … n-1 for n slides, and the current page is the given initial page. |
| Navigation.Navigator.KeyDown | src/takahashi.js:170-177 | Right arrow (39) steps forward, left arrow (37) steps back, and any other key leaves the current page. A step moves only from a page to a page (`Stepped`). The page list is unchanged. |
| Navigation.Navigator.TouchStart | src/takahashi.js:179-183 | A touch on a link leaves the page. Otherwise a touch right of the middle steps forward and one on the left steps back, moving only from a page to a page (`Stepped`). The page list is unchanged. |

## Left out

- Loading the document by a synchronous XMLHttpRequest (src/takahashi.js:14-24) is I/O. `Parser.ParseDocument` starts from the text, split at "\n" as `readLines` does.
- Building the DOM: `generateSlides` (except the page numbers it registers), `render`, `fitSlide`, `fitH1`, `fitH2` and `resizeAllImages`. These are DOM and floating-point layout code.
- Syntax highlighting of code blocks is a call into a library that is not part of this model.
- `switchSlide` beyond the new current page: display styles, `location.hash` and rendering are DOM effects.
- Navigation.Navigator.constructor: the initial page is a parameter. The source derives it with `parseInt(location.hash.substring(1))` (src/takahashi.js:236), which reads the URL and can yield `NaN`. That is not modelled.
- Navigation.Navigator.TouchStart: the target element's `href` becomes the boolean `onLink`, and the touch position and window width are real numbers. Browser events are not modelled.
- LineLength.HtmlStringMaxLineLength: the source measures the heading's `innerHTML`, where the browser serialises `<br/>` as `<br>`. The model takes the serialised markup as input, and the serialisation is not modelled.
- Text is a sequence of Dafny `char`s, which are Unicode scalar values. JavaScript strings are sequences of UTF-16 code units. A character outside the Basic Multilingual Plane is one `char` here but two code units there. So `line.length` (src/takahashi.js:166 and :230) counts it twice in the source and once in the model, and the model's line lengths are smaller by one for each such character. Lone surrogates are not represented. The ASCII and wide-character classes lie below U+10000, where a character and a code unit agree.
- Parser.ParseLines: the source recurses once per line on `lines.slice(1)` in `__parse` and `processCodeBlock` (src/takahashi.js:40-75). A long enough document exhausts the JavaScript call stack and throws a `RangeError`. The loop and `Parser.Parse` have no such bound and return the parsed slides.
- Navigation.Navigator.KeyDown: from a current page that is not an available page, the source's handler throws a `TypeError` inside `switchSlide` (src/takahashi.js:115), because the slide element is missing. The model keeps the page unchanged, as the source does, but does not surface the exception.
- Navigation.Navigator.TouchStart: the same `TypeError` from a current page that is not an available page is not surfaced either. The page stays unchanged.
- Parser.CodeOf: a slide without a code field is read as empty code. Inside a code block the last slide is always the code-block slide the fence created, so that case does not arise from `Parse`.
- Emphasis.ProcessEmphasisMarks: it is not idempotent in general, and no idempotence is claimed. For example `***a*` becomes `<i>*</i>a*`, which the italic pass rewrites again. The properties proved instead are the fixed point on plain text and the idempotence of the break step alone.
