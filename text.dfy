/**
 * The string primitives the store relies on, with Rust's `str` semantics:
 * `trim`, `lines`, `split_whitespace` and joining with a single space.
 */
module Text {

  /** The characters with the Unicode White_Space property, which Rust's
      `char::is_whitespace`, `trim` and `split_whitespace` use. */
  const WhiteSpace: set<char> := {
    '\t', '\n', '\U{000B}', '\U{000C}', '\r', ' ', '\U{0085}', '\U{00A0}', '\U{1680}',
    '\U{2000}', '\U{2001}', '\U{2002}', '\U{2003}', '\U{2004}', '\U{2005}', '\U{2006}',
    '\U{2007}', '\U{2008}', '\U{2009}', '\U{200A}', '\U{2028}', '\U{2029}', '\U{202F}',
    '\U{205F}', '\U{3000}'
  }

  predicate IsWhitespace(c: char) {
    c in WhiteSpace
  }

  predicate NoWhitespace(s: string) {
    forall i :: 0 <= i < |s| ==> !IsWhitespace(s[i])
  }

  predicate AllWhitespace(s: string) {
    forall i :: 0 <= i < |s| ==> IsWhitespace(s[i])
  }

  /** A token of `split_whitespace`: a non-empty run of non-whitespace characters. */
  predicate IsWord(w: string) {
    w != [] && NoWhitespace(w)
  }

  /** The length of the longest all-whitespace prefix of `s`. */
  function LeadingWhitespace(s: string): (n: nat)
    ensures n <= |s| && AllWhitespace(s[..n])
    ensures n == |s| || !IsWhitespace(s[n])
  {
    if s == [] || !IsWhitespace(s[0]) then 0
    else
      var m := LeadingWhitespace(s[1..]);
      assert s[..m + 1] == [s[0]] + s[1..][..m];
      m + 1
  }

  /** `trim_start`: drops the longest all-whitespace prefix. */
  function TrimStart(s: string): (r: string)
    ensures |r| <= |s| && r == s[|s| - |r|..]
    ensures AllWhitespace(s[..|s| - |r|])
    ensures r == [] || !IsWhitespace(r[0])
  {
    s[LeadingWhitespace(s)..]
  }

  /** `trim_end`: drops the longest all-whitespace suffix. */
  function TrimEnd(s: string): (r: string)
    ensures |r| <= |s| && r == s[..|r|]
    ensures AllWhitespace(s[|r|..])
    ensures r == [] || !IsWhitespace(r[|r| - 1])
  {
    if s != [] && IsWhitespace(s[|s| - 1]) then TrimEnd(s[..|s| - 1]) else s
  }

  /** `trim`: the slice of `s` left after dropping whitespace at both ends; it
      neither starts nor ends with whitespace, and is empty only when `s` is all
      whitespace. */
  function Trim(s: string): (r: string)
    ensures var i := LeadingWhitespace(s);
      && i + |r| <= |s| && r == s[i..i + |r|]
      && AllWhitespace(s[..i]) && AllWhitespace(s[i + |r|..])
    ensures r == [] || (!IsWhitespace(r[0]) && !IsWhitespace(r[|r| - 1]))
    ensures r == [] <==> AllWhitespace(s)
  {
    TrimParts(s, LeadingWhitespace(s), TrimStart(s), TrimEnd(TrimStart(s)));
    TrimEnd(TrimStart(s))
  }

  /** The facts `Trim` promises, on its parts: `i` leading whitespace
      characters, the suffix `t` after them and its trimmed prefix `r`. */
  lemma TrimParts(s: string, i: nat, t: string, r: string)
    requires i == LeadingWhitespace(s) && t == TrimStart(s) && r == TrimEnd(t)
    ensures i + |r| <= |s| && r == s[i..i + |r|]
      && AllWhitespace(s[..i]) && AllWhitespace(s[i + |r|..])
    ensures r == [] || (!IsWhitespace(r[0]) && !IsWhitespace(r[|r| - 1]))
    ensures r == [] <==> AllWhitespace(s)
  {
    SliceOfSuffix(s, i, r, t);
    TrimEndStart(t, r);
    TrimEmptyIff(s, t, r);
  }

  /** `trim_end` keeps the first character of what it does not empty. */
  lemma TrimEndStart(t: string, r: string)
    requires r == TrimEnd(t) && (t == [] || !IsWhitespace(t[0]))
    ensures r == [] || !IsWhitespace(r[0])
  {
    if r != [] {
      assert r[0] == t[0];
    }
  }

  /** A prefix `r` of the suffix `s[i..]` is the slice `s[i..i + |r|]`. */
  lemma SliceOfSuffix(s: string, i: nat, r: string, t: string)
    requires i <= |s| && t == s[i..] && |r| <= |t| && r == t[..|r|]
    requires AllWhitespace(t[|r|..])
    ensures r == s[i..i + |r|] && AllWhitespace(s[i + |r|..])
  {
    assert s[i + |r|..] == t[|r|..];
  }

  lemma TrimEmptyIff(s: string, t: string, r: string)
    requires t == TrimStart(s) && r == TrimEnd(t)
    ensures r == [] <==> AllWhitespace(s)
  {
    var d := |s| - |t|;
    if r == [] {
      assert |t| == 0;
      forall k | 0 <= k < |s| ensures IsWhitespace(s[k]) {
        assert s[k] == s[..d][k];
      }
    } else {
      assert t != [];
      assert s[d] == t[0];
    }
  }

  /** `trim` adds no characters. */
  lemma TrimKeepsOut(s: string, c: char)
    requires c !in s
    ensures c !in Trim(s)
  {
    var r := Trim(s);
    var i := LeadingWhitespace(s);
    forall k | 0 <= k < |r| ensures r[k] != c {
      assert r[k] == s[i + k];
    }
  }

  /** A slice of `s` with no whitespace at either end is left alone by `trim`. */
  lemma TrimNoop(s: string)
    requires s == [] || (!IsWhitespace(s[0]) && !IsWhitespace(s[|s| - 1]))
    ensures Trim(s) == s
  {
  }

  /** The index of the first occurrence of `c` in `s`. */
  function IndexOf(s: string, c: char): (i: nat)
    requires c in s
    ensures i < |s| && s[i] == c && c !in s[..i]
  {
    if s[0] == c then 0
    else
      var j := IndexOf(s[1..], c);
      assert s[..j + 1] == [s[0]] + s[1..][..j];
      j + 1
  }

  /** The first occurrence of `c` in `x + [c] + y`, when `x` has none, is at `|x|`. */
  lemma {:induction false} IndexOfAfterPrefix(x: string, c: char, y: string)
    requires c !in x
    ensures IndexOf(x + [c] + y, c) == |x|
  {
    if x != [] {
      assert (x + [c] + y)[1..] == x[1..] + [c] + y;
      IndexOfAfterPrefix(x[1..], c, y);
    }
  }

  /** Removes one trailing carriage return, as `lines` does before a line feed. */
  function StripCR(s: string): (r: string)
    ensures r == s || (r + "\r" == s)
    ensures r == s <==> (s == [] || s[|s| - 1] != '\r')
  {
    if |s| > 0 && s[|s| - 1] == '\r' then s[..|s| - 1] else s
  }

  /** `BufRead::lines`: splits at every `\n` and drops a `\r` right before it; a final
      line break does not start an empty line, and the empty text has no lines. */
  function Lines(text: string): (r: seq<string>)
    ensures r == [] <==> text == []
    decreases |text|
  {
    if text == [] then []
    else if '\n' in text then
      var i := IndexOf(text, '\n');
      [StripCR(text[..i])] + Lines(text[i + 1..])
    else [text]
  }

  predicate NoLineFeeds(lines: seq<string>) {
    forall i :: 0 <= i < |lines| ==> '\n' !in lines[i]
  }

  /** No line holds a line feed, and only the empty text has no lines. */
  lemma {:induction false} LinesShape(text: string)
    ensures NoLineFeeds(Lines(text))
    ensures Lines(text) == [] <==> text == []
    decreases |text|
  {
    if text != [] && '\n' in text {
      var i := IndexOf(text, '\n');
      LinesShape(text[i + 1..]);
      NoLineFeedsCons(StripCR(text[..i]), Lines(text[i + 1..]));
    }
  }

  lemma NoLineFeedsCons(line: string, rest: seq<string>)
    requires '\n' !in line && NoLineFeeds(rest)
    ensures NoLineFeeds([line] + rest)
  {
  }

  /** `lines` takes off one line, up to the first line feed. */
  lemma {:induction false} LinesCons(x: string, rest: string)
    requires '\n' !in x
    ensures Lines(x + "\n" + rest) == [StripCR(x)] + Lines(rest)
  {
    var s := x + "\n" + rest;
    IndexOfAfterPrefix(x, '\n', rest);
    assert s[..|x|] == x;
    assert s[|x| + 1..] == rest;
  }

  /** The length of the longest whitespace-free prefix of `s`. */
  function WordLength(s: string): (n: nat)
    ensures n <= |s| && NoWhitespace(s[..n])
    ensures n == |s| || IsWhitespace(s[n])
  {
    if s == [] || IsWhitespace(s[0]) then 0
    else
      var m := WordLength(s[1..]);
      assert s[..m + 1] == [s[0]] + s[1..][..m];
      m + 1
  }

  lemma {:induction false} WordLengthOfWord(w: string, tail: string)
    requires NoWhitespace(w)
    requires tail == [] || IsWhitespace(tail[0])
    ensures WordLength(w + tail) == |w|
  {
    if w != [] {
      assert (w + tail)[1..] == w[1..] + tail;
      WordLengthOfWord(w[1..], tail);
    }
  }

  predicate AllWords(ws: seq<string>) {
    forall i :: 0 <= i < |ws| ==> IsWord(ws[i])
  }

  /** `split_whitespace`: the maximal runs of non-whitespace characters, in
      order; every token is a non-empty run without whitespace. */
  function Tokenize(s: string): (r: seq<string>)
    ensures AllWords(r)
    decreases |s|
  {
    var t := TrimStart(s);
    if t == [] then
      []
    else
      var n := WordLength(t);
      assert n != 0 by { assert !IsWhitespace(t[0]); }
      var rest := Tokenize(t[n..]);
      ConsWords(t[..n], rest);
      [t[..n]] + rest
  }

  lemma ConsWords(w: string, rest: seq<string>)
    requires IsWord(w) && AllWords(rest)
    ensures AllWords([w] + rest)
  {
  }

  /** There are no tokens exactly when the text is all whitespace. */
  lemma TokenizeEmpty(s: string)
    ensures Tokenize(s) == [] <==> AllWhitespace(s)
  {
    var t := TrimStart(s);
    if t == [] {
      assert s == s[..|s| - |t|];
    } else {
      assert s[|s| - |t|] == t[0];
    }
  }

  /** `join(" ")`: the words with one space between neighbours; it starts with
      the first word. */
  function JoinSpace(words: seq<string>): (r: string)
    ensures words != [] ==> words[0] <= r
  {
    if words == [] then ""
    else if |words| == 1 then words[0]
    else words[0] + " " + JoinSpace(words[1..])
  }

  /** A word followed by whitespace (or nothing) is the first token. */
  lemma TokenizeWordThen(w: string, tail: string)
    requires IsWord(w)
    requires tail == [] || IsWhitespace(tail[0])
    ensures Tokenize(w + tail) == [w] + Tokenize(tail)
  {
    var s := w + tail;
    assert TrimStart(s) == s;
    WordLengthOfWord(w, tail);
    assert s[..|w|] == w;
    assert s[|w|..] == tail;
  }

  /** A single word is its own only token. */
  lemma TokenizeWord(w: string)
    requires IsWord(w)
    ensures Tokenize(w) == [w]
  {
    TokenizeWordThen(w, []);
    assert w + [] == w;
  }

  /** A single word has nothing to trim. */
  lemma TrimWord(w: string)
    requires IsWord(w)
    ensures Trim(w) == w
  {
    TrimNoop(w);
  }

  /** Leading whitespace adds its own length to the leading whitespace count. */
  lemma {:induction false} LeadingWhitespaceAppend(ws: string, x: string)
    requires AllWhitespace(ws)
    ensures LeadingWhitespace(ws + x) == |ws| + LeadingWhitespace(x)
  {
    if ws == [] {
      assert ws + x == x;
    } else {
      assert (ws + x)[0] == ws[0];
      assert (ws + x)[1..] == ws[1..] + x;
      LeadingWhitespaceAppend(ws[1..], x);
    }
  }

  /** Leading whitespace does not change the tokens. */
  lemma TokenizeSpaceThen(ws: string, x: string)
    requires AllWhitespace(ws)
    ensures Tokenize(ws + x) == Tokenize(x)
  {
    LeadingWhitespaceAppend(ws, x);
    assert (ws + x)[|ws| + LeadingWhitespace(x)..] == x[LeadingWhitespace(x)..];
    assert TrimStart(ws + x) == TrimStart(x);
  }

  lemma TokenizeJoinStep(w: string, more: seq<string>)
    requires IsWord(w)
    ensures Tokenize(w + " " + JoinSpace(more)) == [w] + Tokenize(JoinSpace(more))
  {
    var rest := JoinSpace(more);
    assert w + " " + rest == w + (" " + rest);
    TokenizeWordThen(w, " " + rest);
    TokenizeSpaceThen(" ", rest);
  }

  /** Joining words and splitting them again gives back the words. */
  lemma {:induction false} TokenizeJoinSpace(words: seq<string>)
    requires AllWords(words)
    ensures Tokenize(JoinSpace(words)) == words
  {
    if words == [] {
    } else if |words| == 1 {
      TokenizeWordThen(words[0], []);
      assert words[0] + [] == words[0];
    } else {
      TokenizeJoinSpace(words[1..]);
      TokenizeJoinStep(words[0], words[1..]);
    }
  }

  /** A join of words is empty only for no words, starts and ends with
      non-whitespace, and has no line feed. */
  lemma {:induction false} JoinSpaceShape(words: seq<string>)
    requires AllWords(words)
    ensures var j := JoinSpace(words);
      && (j == [] <==> words == [])
      && (j != [] ==> !IsWhitespace(j[0]) && !IsWhitespace(j[|j| - 1]))
      && '\n' !in j
  {
    if |words| > 1 {
      JoinSpaceShape(words[1..]);
      var j := JoinSpace(words);
      var r := JoinSpace(words[1..]);
      assert j[|j| - 1] == r[|r| - 1];
      forall k | 0 <= k < |j| ensures j[k] != '\n' {
        if k < |words[0]| {
          assert j[k] == words[0][k];
        } else if k > |words[0]| {
          assert j[k] == r[k - |words[0]| - 1];
        }
      }
    } else if |words| == 1 {
      forall k | 0 <= k < |words[0]| ensures words[0][k] != '\n' {
        assert !IsWhitespace(words[0][k]);
      }
    }
  }
}
