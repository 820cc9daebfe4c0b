/** JavaScript strings, and the two string operations of the source that are not regular
    expressions: prefix tests (`s.substring(0, k) === p`) and `String.prototype.split` with a
    non-empty string separator. A string here is a sequence of Dafny `char`s (Unicode scalar
    values). JavaScript counts UTF-16 code units instead, so a character outside the Basic
    Multilingual Plane is one `char` here and two code units (two towards `length`) there. */
module Text {
  import opened Wrappers

  type String = seq<char>

  /** `s.substring(0, |p|) === p`: `substring` clamps its end, so a short `s` never matches. */
  predicate StartsWith(s: String, p: String)
  {
    |p| <= |s| && s[..|p|] == p
  }

  /** `pat` occurs in `s` starting at index `i`. */
  predicate OccursAt(s: String, pat: String, i: nat)
  {
    i <= |s| && StartsWith(s[i..], pat)
  }

  /** The first occurrence of `pat` in `s` at or after `from`. */
  function IndexOf(s: String, pat: String, from: nat): (r: Option<nat>)
    requires from <= |s|
    ensures r.Some? ==> from <= r.value && r.value + |pat| <= |s| && OccursAt(s, pat, r.value)
    ensures r.Some? ==> forall j :: from <= j < r.value ==> !OccursAt(s, pat, j)
    ensures r.None? ==> forall j :: from <= j <= |s| ==> !OccursAt(s, pat, j)
    decreases |s| - from
  {
    if OccursAt(s, pat, from) then Some(from)
    else if from == |s| then None
    else IndexOf(s, pat, from + 1)
  }

  /** `s.split(sep)`: cut at every occurrence of `sep`, leftmost first, never overlapping. */
  function Split(s: String, sep: String): (r: seq<String>)
    requires |sep| > 0
    ensures |r| >= 1
    decreases |s|
  {
    match IndexOf(s, sep, 0)
    case None => [s]
    case Some(i) => [s[..i]] + Split(s[i + |sep|..], sep)
  }

  /** `parts.join(sep)`; `[].join(sep)` is the empty string. */
  function Join(parts: seq<String>, sep: String): (r: String)
  {
    if |parts| == 0 then []
    else if |parts| == 1 then parts[0]
    else parts[0] + sep + Join(parts[1..], sep)
  }

  /** Splitting and joining again with the same separator gives back the original text. */
  lemma {:induction false} SplitThenJoin(s: String, sep: String)
    requires |sep| > 0
    ensures Join(Split(s, sep), sep) == s
    decreases |s|
  {
    match IndexOf(s, sep, 0)
    case None =>
    case Some(i) =>
      var tail := s[i + |sep|..];
      var rest := Split(tail, sep);
      SplitThenJoin(tail, sep);
      var parts := [s[..i]] + rest;
      assert Split(s, sep) == parts;
      assert parts[1..] == rest;
      assert Join(parts, sep) == s[..i] + sep + tail;
      assert s[i..i + |sep|] == sep;
      assert s == s[..i] + s[i..i + |sep|] + tail;
  }

  /** Every piece of a split is a part of the text that contains no occurrence of the separator. */
  lemma {:induction false} SplitPieces(s: String, sep: String)
    requires |sep| > 0
    ensures forall p :: p in Split(s, sep) ==> |p| <= |s| && forall j :: !OccursAt(p, sep, j)
    decreases |s|
  {
    match IndexOf(s, sep, 0)
    case None =>
      assert Split(s, sep) == [s];
    case Some(i) =>
      var tail := s[i + |sep|..];
      var rest := Split(tail, sep);
      SplitPieces(tail, sep);
      NoOccurrenceBeforeFirst(s, sep, i);
      assert Split(s, sep) == [s[..i]] + rest;
      forall p | p in Split(s, sep) ensures |p| <= |s| && forall j :: !OccursAt(p, sep, j) {
        if p != s[..i] { assert p in rest; }
      }
  }

  /** The text before the first occurrence of the separator holds no occurrence of it. */
  lemma NoOccurrenceBeforeFirst(s: String, sep: String, i: nat)
    requires |sep| > 0 && IndexOf(s, sep, 0) == Some(i)
    ensures forall j :: !OccursAt(s[..i], sep, j)
  {
    forall j: nat | OccursAt(s[..i], sep, j) ensures false {
      assert s[..i][j..][..|sep|] == s[j..][..|sep|];
      assert OccursAt(s, sep, j);
    }
  }

  /** For a one-character separator the converse holds too: pieces that do not contain the
      separator come back unchanged from joining and splitting again. */
  lemma {:induction false} JoinThenSplit(parts: seq<String>, c: char)
    requires |parts| >= 1
    requires forall k, j :: 0 <= k < |parts| && 0 <= j < |parts[k]| ==> parts[k][j] != c
    ensures Split(Join(parts, [c]), [c]) == parts
    decreases |parts|
  {
    var s := Join(parts, [c]);
    if |parts| == 1 {
      assert s == parts[0];
      forall j: nat | j <= |s| ensures !OccursAt(s, [c], j) {
        if j < |s| { assert s[j] != c; }
      }
      assert IndexOf(s, [c], 0).None?;
    } else {
      var p := parts[0];
      var rest := Join(parts[1..], [c]);
      assert s == p + [c] + rest;
      forall j: nat | j < |p| ensures !OccursAt(s, [c], j) {
        assert s[j] == p[j] != c;
      }
      assert OccursAt(s, [c], |p|) by { assert s[|p|..][..1] == [c]; }
      assert IndexOf(s, [c], 0) == Some(|p|);
      assert s[..|p|] == p;
      assert s[|p| + 1..] == rest;
      JoinThenSplit(parts[1..], c);
      assert [p] + parts[1..] == parts;
    }
  }

  /** Regrouping a concatenation of five texts. */
  lemma Regroup(a: String, p: String, q: String, r: String, u: String)
    ensures a + p + q + r + u == a + (p + q + r + u)
  {
  }

  /** Regrouping a concatenation of four texts. */
  lemma Associate(a: String, b: String, c: String)
    ensures a + (b + c) == a + b + c
  {
  }

  lemma RegroupFour(a: String, p: String, q: String, r: String)
    ensures a + p + q + r == a + (p + q + r)
  {
  }
}
