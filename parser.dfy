/** The slide-markup parser, `Parser.prototype.__parse` and `processCodeBlock`
    (src/takahashi.js:36-76). The source walks the lines by tail recursion and mutates one shared
    `parsed` array: it pushes new slides and assigns fields of the last one. Here the walk is the
    method ParseLines, a loop over a line index with a mode flag and a growing slide sequence. It is
    proved equal to the specification function Parse, which folds Step over the lines. */
module Parser {
  import opened Wrappers
  import opened Text
  import opened Pattern
  import opened Emphasis

  /** The `type` field of a slide record. */
  datatype SlideKind = Normal | FullscreenImage | ImageAndTitle | CodeBlock

  /** A slide record: a JavaScript object whose optional fields are absent (None) until set. */
  datatype Slide = Slide(
    kind: SlideKind,
    title: Option<String>,
    subtitle: Option<String>,
    imgUrl: Option<String>,
    language: Option<String>,
    code: Option<String>)

  /** Where the source would throw: a subtitle or image line with no slide before it, an image line
      that `match` does not match (the `[1]` of null), and end of input inside a code block
      (`lines[0]` is undefined). Line numbers count from 0. */
  datatype ParseError = NoPreviousSlide(line: nat) | ImagePatternMismatch(line: nat) | UnterminatedFence

  /** The parser's state between lines: the slides so far and whether a code block is open. */
  datatype State = State(slides: seq<Slide>, inCode: bool)

  function NormalSlide(title: String): Slide
  {
    Slide(Normal, Some(title), None, None, None, None)
  }

  function FullscreenSlide(url: String): Slide
  {
    Slide(FullscreenImage, None, None, Some(url), None, None)
  }

  function CodeSlide(language: String, code: String): Slide
  {
    Slide(CodeBlock, None, None, None, Some(language), Some(code))
  }

  /** `head.match(/!\[\]\((.+?)\)/)[1]`, or None where `match` gives null. */
  function ImageUrl(line: String): Option<String>
  {
    Capture(line, "![](", ")")
  }

  /** The code text of a slide; a code block's slide always has one. */
  function CodeOf(s: Slide): String
  {
    if s.code.Some? then s.code.value else ""
  }

  /** `code.substring(0, code.length - 1)`: drops the last character, if any. */
  function DropLast(s: String): String
  {
    if |s| == 0 then [] else s[..|s| - 1]
  }

  /** Replaces the last slide. */
  function SetLast(slides: seq<Slide>, s: Slide): (r: seq<Slide>)
    requires |slides| > 0
    ensures |r| == |slides| && r[|r| - 1] == s
    ensures forall i :: 0 <= i < |slides| - 1 ==> r[i] == slides[i]
  {
    slides[..|slides| - 1] + [s]
  }

  function Last(slides: seq<Slide>): Slide
    requires |slides| > 0
  {
    slides[|slides| - 1]
  }

  /** One line of `__parse` (outside a code block) or of `processCodeBlock` (inside one); `at` is
      the line's index, for error reports. */
  function Step(st: State, line: String, at: nat): Result<State, ParseError>
  {
    if st.inCode then CodeLine(st.slides, line, at) else ClassifyLine(st.slides, line, at)
  }

  /** `processCodeBlock` on one line: a line starting with three backticks closes the block and
      drops the last newline of the code; any other line is appended with a newline. */
  function CodeLine(slides: seq<Slide>, line: String, at: nat): Result<State, ParseError>
  {
    if |slides| == 0 then Err(NoPreviousSlide(at))
    else
      var last := Last(slides);
      if StartsWith(line, "```") then
        Ok(State(SetLast(slides, last.(code := Some(DropLast(CodeOf(last))))), false))
      else
        Ok(State(SetLast(slides, last.(code := Some(CodeOf(last) + line + "\n"))), true))
  }

  /** `__parse` on one line: classification by prefix, in the source's order. */
  function ClassifyLine(slides: seq<Slide>, line: String, at: nat): Result<State, ParseError>
  {
    if line == "" then Ok(State(slides, false))
    else if StartsWith(line, "# ![](") then
      match ImageUrl(line)
      case None => Err(ImagePatternMismatch(at))
      case Some(url) => Ok(State(slides + [FullscreenSlide(url)], false))
    else if StartsWith(line, "![](") then
      match ImageUrl(line)
      case None => Err(ImagePatternMismatch(at))
      case Some(url) =>
        if |slides| == 0 then Err(NoPreviousSlide(at))
        else Ok(State(SetLast(slides, Last(slides).(kind := ImageAndTitle, imgUrl := Some(url))), false))
    else if StartsWith(line, "# ") then
      Ok(State(slides + [NormalSlide(ProcessEmphasisMarks(line[2..]))], false))
    else if StartsWith(line, "- ") then
      if |slides| == 0 then Err(NoPreviousSlide(at))
      else Ok(State(SetLast(slides, Last(slides).(subtitle := Some(ProcessEmphasisMarks(line[2..])))), false))
    else if StartsWith(line, "```") then
      Ok(State(slides + [CodeSlide(line[3..], "")], true))
    else Ok(State(slides, false))
  }

  /** The rest of the walk from state `st`, the first of `lines` being line number `at`. */
  function ParseFrom(lines: seq<String>, st: State, at: nat): Result<State, ParseError>
    decreases |lines|
  {
    if |lines| == 0 then
      if st.inCode then Err(UnterminatedFence) else Ok(st)
    else
      match Step(st, lines[0], at)
      case Err(e) => Err(e)
      case Ok(next) => ParseFrom(lines[1..], next, at + 1)
  }

  /** `__parse(lines, [])`: the slides of a whole document, or where it would throw. */
  function Parse(lines: seq<String>): Result<seq<Slide>, ParseError>
  {
    match ParseFrom(lines, State([], false), 0)
    case Ok(st) => Ok(st.slides)
    case Err(e) => Err(e)
  }

  /** `parse()` after `readLines()`: the document text is cut at every "\n". */
  function ParseDocument(text: String): Result<seq<Slide>, ParseError>
  {
    Parse(Split(text, "\n"))
  }

  /** The parser as the source runs it: one pass over the lines, pushing slides onto `parsed` and
      assigning fields of its last element. */
  method ParseLines(lines: seq<String>) returns (r: Result<seq<Slide>, ParseError>)
    ensures r == Parse(lines)
  {
    var parsed: seq<Slide> := [];
    var inCode := false;
    var i := 0;
    while i < |lines|
      invariant 0 <= i <= |lines|
      invariant ParseFrom(lines[i..], State(parsed, inCode), i) == ParseFrom(lines, State([], false), 0)
    {
      var head := lines[i];
      assert lines[i..][1..] == lines[i + 1..];
      if inCode {
        if |parsed| == 0 {
          return Err(NoPreviousSlide(i));
        }
        var last := parsed[|parsed| - 1];
        if StartsWith(head, "```") {
          var code := CodeOf(last);
          parsed := parsed[..|parsed| - 1] + [last.(code := Some(DropLast(code)))];
          inCode := false;
        } else {
          parsed := parsed[..|parsed| - 1] + [last.(code := Some(CodeOf(last) + head + "\n"))];
        }
      } else if head == "" {
      } else if StartsWith(head, "# ![](") {
        var url := ImageUrl(head);
        if url.None? {
          return Err(ImagePatternMismatch(i));
        }
        parsed := parsed + [FullscreenSlide(url.value)];
      } else if StartsWith(head, "![](") {
        var url := ImageUrl(head);
        if url.None? {
          return Err(ImagePatternMismatch(i));
        }
        if |parsed| == 0 {
          return Err(NoPreviousSlide(i));
        }
        var last := parsed[|parsed| - 1];
        parsed := parsed[..|parsed| - 1] + [last.(kind := ImageAndTitle, imgUrl := url)];
      } else if StartsWith(head, "# ") {
        parsed := parsed + [NormalSlide(ProcessEmphasisMarks(head[2..]))];
      } else if StartsWith(head, "- ") {
        if |parsed| == 0 {
          return Err(NoPreviousSlide(i));
        }
        var last := parsed[|parsed| - 1];
        parsed := parsed[..|parsed| - 1] + [last.(subtitle := Some(ProcessEmphasisMarks(head[2..])))];
      } else if StartsWith(head, "```") {
        parsed := parsed + [CodeSlide(head[3..], "")];
        inCode := true;
      }
      i := i + 1;
    }
    if inCode {
      return Err(UnterminatedFence);
    }
    return Ok(parsed);
  }
}
