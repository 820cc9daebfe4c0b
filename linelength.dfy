/** The two integer line-length estimates that choose initial font sizes:
    `getHtmlStringMaxLineLength` (src/takahashi.js:162-168), used for headings, and
    `getTextMaxLineLength` (src/takahashi.js:227-232), used for code blocks. */
module LineLength {
  import opened Text
  import opened Pattern

  /** `Math.max.apply(null, pieces.map(measure))` over a non-empty list of pieces. */
  function MaxOver(pieces: seq<String>, measure: String -> nat): (r: nat)
    requires |pieces| > 0
    ensures forall p :: p in pieces ==> measure(p) <= r
    ensures exists p :: p in pieces && measure(p) == r
  {
    if |pieces| == 1 then measure(pieces[0])
    else
      var m := MaxOver(pieces[1..], measure);
      assert forall p :: p in pieces ==> p == pieces[0] || p in pieces[1..];
      if measure(pieces[0]) < m then m else measure(pieces[0])
  }

  // ---- getHtmlStringMaxLineLength ----

  /** A code unit in `[\x00-\x7F]`. */
  predicate IsAscii(c: char)
  {
    c as int < 0x80
  }

  /** `s.replace(/[\x00-\x7F]{2}/g, "x")`: every non-overlapping pair of ASCII code units, taken
      left to right, becomes one character. */
  function CollapseAsciiPairs(s: String): (r: String)
    decreases |s|
  {
    if |s| >= 2 && IsAscii(s[0]) && IsAscii(s[1]) then "x" + CollapseAsciiPairs(s[2..])
    else if |s| == 0 then []
    else [s[0]] + CollapseAsciiPairs(s[1..])
  }

  /** Collapsing at least halves a text and never lengthens it. */
  lemma {:induction false} CollapseBounds(s: String)
    ensures (|s| + 1) / 2 <= |CollapseAsciiPairs(s)| <= |s|
    decreases |s|
  {
    if |s| >= 2 && IsAscii(s[0]) && IsAscii(s[1]) {
      CollapseBounds(s[2..]);
    } else if |s| > 0 {
      CollapseBounds(s[1..]);
    }
  }

  /** An all-ASCII text of length n counts as ceil(n / 2). */
  lemma {:induction false} CollapseAllAscii(s: String)
    requires forall i :: 0 <= i < |s| ==> IsAscii(s[i])
    ensures |CollapseAsciiPairs(s)| == (|s| + 1) / 2
    decreases |s|
  {
    if |s| >= 2 {
      CollapseAllAscii(s[2..]);
    } else if |s| == 1 {
      assert CollapseAsciiPairs(s) == [s[0]] + CollapseAsciiPairs(s[1..]);
    }
  }

  /** `line.replace(/<.+?>/g, "")`: markup tags are dropped. */
  function StripTags(line: String): (r: String)
  {
    RemoveSpans(line, "<", ">")
  }

  /** The estimate of one `<br>`-separated piece of a heading's markup. */
  function HtmlPieceLength(piece: String): nat
  {
    |CollapseAsciiPairs(StripTags(piece))|
  }

  /** `getHtmlStringMaxLineLength`: the largest piece estimate over the `<br>`-separated pieces;
      it never exceeds the length of the markup. */
  function HtmlStringMaxLineLength(html: String): (r: nat)
    ensures forall piece :: piece in Split(html, "<br>") ==> HtmlPieceLength(piece) <= r
    ensures exists piece :: piece in Split(html, "<br>") && HtmlPieceLength(piece) == r
    ensures r <= |html|
  {
    var pieces := Split(html, "<br>");
    var r := MaxOver(pieces, HtmlPieceLength);
    var piece :| piece in pieces && HtmlPieceLength(piece) == r;
    SplitPieces(html, "<br>");
    RemoveSpansShortens(piece, "<", ">");
    CollapseBounds(StripTags(piece));
    r
  }

  /** One markup-free ASCII line of n characters is estimated at ceil(n / 2). */
  lemma PlainAsciiHeading(html: String)
    requires forall i :: 0 <= i < |html| ==> IsAscii(html[i]) && html[i] != '<'
    ensures HtmlStringMaxLineLength(html) == (|html| + 1) / 2
  {
    forall j | 0 <= j <= |html| ensures !OccursAt(html, "<br>", j) {
      if j < |html| { assert html[j..][0] == html[j]; }
    }
    assert IndexOf(html, "<br>", 0).None?;
    assert Split(html, "<br>") == [html];
    RemoveSpansShortens(html, "<", ">");
    CollapseAllAscii(html);
  }

  // ---- getTextMaxLineLength ----

  /** A code unit in one of the ranges `一-龯`, `　-ヿ`, `＀-｠`,
      `￠-￦` (CJK ideographs, kana and CJK punctuation, fullwidth forms). */
  predicate IsWide(c: char)
  {
    ('一' <= c <= '龯') || ('　' <= c <= 'ヿ') ||
    ('＀' <= c <= '｠') || ('￠' <= c <= '￦')
  }

  /** `line.replace(/[wide ranges]/g, "AA")`. */
  function WidenWide(line: String): (r: String)
    decreases |line|
  {
    if |line| == 0 then []
    else (if IsWide(line[0]) then "AA" else [line[0]]) + WidenWide(line[1..])
  }

  /** The number of wide code units in a line. */
  function CountWide(line: String): nat
    decreases |line|
  {
    if |line| == 0 then 0
    else (if IsWide(line[0]) then 1 else 0) + CountWide(line[1..])
  }

  /** Widening adds exactly one unit per wide character. */
  lemma {:induction false} WidenLength(line: String)
    ensures |WidenWide(line)| == |line| + CountWide(line)
    decreases |line|
  {
    if |line| > 0 {
      WidenLength(line[1..]);
    }
  }

  /** The width of one code line: its length after widening. */
  function LineWidth(line: String): (w: nat)
    ensures w == |line| + CountWide(line)
  {
    WidenLength(line);
    |WidenWide(line)|
  }

  /** `getTextMaxLineLength`: the largest width over the newline-separated lines, where a wide
      character counts twice. */
  function TextMaxLineLength(text: String): (r: nat)
    ensures forall line :: line in Split(text, "\n") ==> |line| + CountWide(line) <= r
    ensures exists line :: line in Split(text, "\n") && |line| + CountWide(line) == r
  {
    MaxOver(Split(text, "\n"), LineWidth)
  }
}
