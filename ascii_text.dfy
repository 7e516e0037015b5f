/**
 * The handful of Python string operations the client relies on
 * (`lower`, `upper`, `strip`, `rstrip(c)`, `split()`, `split(c)`, `join`),
 * restricted to ASCII: case mapping touches only `A`-`Z` / `a`-`z`, and
 * whitespace is what Python's `str.isspace` accepts below code point 128.
 */
module AsciiText {
  import opened Slices

  /** Python's whitespace within ASCII: TAB..CR (9-13), the separators 28-31, and SPACE. */
  predicate IsSpace(c: char) {
    var n := c as int;
    n == 32 || 9 <= n <= 13 || 28 <= n <= 31
  }

  predicate IsUpper(c: char) { 'A' <= c <= 'Z' }

  predicate IsLowerCase(c: char) { 'a' <= c <= 'z' }

  function LowerChar(c: char): (r: char)
    ensures !IsUpper(r)
  {
    if IsUpper(c) then (c as int + 32) as char else c
  }

  function UpperChar(c: char): (r: char)
    ensures !IsLowerCase(r)
  {
    if IsLowerCase(c) then (c as int - 32) as char else c
  }

  /** `s.lower()` */
  function Lower(s: string): (r: string)
    ensures |r| == |s|
    ensures forall i :: 0 <= i < |s| ==> r[i] == LowerChar(s[i])
  {
    if s == [] then [] else [LowerChar(s[0])] + Lower(s[1..])
  }

  /** `s.upper()` */
  function Upper(s: string): (r: string)
    ensures |r| == |s|
    ensures forall i :: 0 <= i < |s| ==> r[i] == UpperChar(s[i])
  {
    if s == [] then [] else [UpperChar(s[0])] + Upper(s[1..])
  }

  /** Lower-casing leaves no upper-case letter and is idempotent. */
  lemma {:induction false} LowerIsLowered(s: string)
    ensures forall i :: 0 <= i < |Lower(s)| ==> !IsUpper(Lower(s)[i])
    ensures Lower(Lower(s)) == Lower(s)
  {
  }

  /** A text without upper-case letters is its own lower-case form. */
  lemma {:induction false} LowerFixed(s: string)
    requires forall i :: 0 <= i < |s| ==> !IsUpper(s[i])
    ensures Lower(s) == s
  {
    if s != [] {
      LowerFixed(s[1..]);
    }
  }

  /** `s.lstrip()`: drops the leading whitespace and nothing else. */
  function LStrip(s: string): (r: string)
    ensures |r| <= |s| && r == s[|s| - |r|..]
    ensures forall i :: 0 <= i < |s| - |r| ==> IsSpace(s[i])
    ensures r == [] || !IsSpace(r[0])
  {
    if s != [] && IsSpace(s[0]) then LStrip(s[1..]) else s
  }

  /** `s.rstrip()`: drops the trailing whitespace and nothing else. */
  function RStrip(s: string): (r: string)
    ensures |r| <= |s| && r == s[..|r|]
    ensures forall i :: |r| <= i < |s| ==> IsSpace(s[i])
    ensures r == [] || !IsSpace(r[|r| - 1])
  {
    if s != [] && IsSpace(s[|s| - 1]) then RStrip(s[..|s| - 1]) else s
  }

  /** `s.strip()` */
  function Strip(s: string): (r: string)
  {
    RStrip(LStrip(s))
  }

  /** `s.strip()` is a slice of `s`, starting after the leading whitespace. */
  lemma {:induction false} StripSlice(s: string)
    ensures var k := |s| - |LStrip(s)|;
            k + |Strip(s)| <= |s| && Strip(s) == s[k..k + |Strip(s)|]
  {
    var l := LStrip(s);
    SliceOfSuffix(s, |s| - |l|, |RStrip(l)|);
  }

  /** What `s.strip()` removes is whitespace. */
  lemma {:induction false} StripRemovesSpace(s: string)
    ensures var k := |s| - |LStrip(s)|;
            && (forall i :: 0 <= i < k ==> IsSpace(s[i]))
            && (forall i :: k + |Strip(s)| <= i < |s| ==> IsSpace(s[i]))
  {
    var l := LStrip(s);
    var k := |s| - |l|;
    var r := RStrip(l);
    assert Strip(s) == r;
    assert l == s[k..];
    forall i | k + |r| <= i < |s|
      ensures IsSpace(s[i])
    {
      assert s[i] == l[i - k];
    }
  }

  /** `s.strip()` neither starts nor ends with whitespace. */
  lemma {:induction false} StripEnds(s: string)
    ensures Strip(s) == [] || (!IsSpace(Strip(s)[0]) && !IsSpace(Strip(s)[|Strip(s)| - 1]))
  {
    var l := LStrip(s);
    var r := RStrip(l);
    assert Strip(s) == r;
    if r != [] {
      assert r == l[..|r|];
      assert r[0] == l[0];
    }
  }

  lemma {:induction false} LStripBlank(s: string)
    requires forall i :: 0 <= i < |s| ==> IsSpace(s[i])
    ensures LStrip(s) == []
  {
    if s != [] {
      LStripBlank(s[1..]);
    }
  }

  /** `not s.strip()`: a text strips to nothing exactly when it is all whitespace. */
  lemma {:induction false} StripEmptyIffBlank(s: string)
    ensures Strip(s) == [] <==> forall i :: 0 <= i < |s| ==> IsSpace(s[i])
  {
    if forall i :: 0 <= i < |s| ==> IsSpace(s[i]) {
      LStripBlank(s);
    }
  }

  /** A text with no outer whitespace is its own stripped form. */
  lemma {:induction false} StripFixed(s: string)
    requires s == [] || (!IsSpace(s[0]) && !IsSpace(s[|s| - 1]))
    ensures Strip(s) == s
  {
  }

  /** `s.rstrip(c)` for a single character `c`. */
  function RStripChar(s: string, c: char): (r: string)
    ensures |r| <= |s| && r == s[..|r|]
    ensures forall i :: |r| <= i < |s| ==> s[i] == c
    ensures r == [] || r[|r| - 1] != c
  {
    if s != [] && s[|s| - 1] == c then RStripChar(s[..|s| - 1], c) else s
  }

  /** A run of `c` appended to `s` is stripped along with `s`'s own trailing run. */
  lemma {:induction false} RStripCharRun(s: string, run: string, c: char)
    requires forall i :: 0 <= i < |run| ==> run[i] == c
    ensures RStripChar(s + run, c) == RStripChar(s, c)
  {
    if run == [] {
      assert s + run == s;
    } else {
      var shorter := run[..|run| - 1];
      assert (s + run)[..|s + run| - 1] == s + shorter;
      RStripCharRun(s, shorter, c);
    }
  }

  /** Concatenation of a list of strings, `"".join(ss)`. */
  function Concat(ss: seq<string>): string
  {
    if ss == [] then "" else ss[0] + Concat(ss[1..])
  }

  lemma {:induction false} ConcatAppend(a: seq<string>, b: seq<string>)
    ensures Concat(a + b) == Concat(a) + Concat(b)
  {
    if a == [] {
      assert a + b == b;
    } else {
      assert (a + b)[1..] == a[1..] + b;
      ConcatAppend(a[1..], b);
    }
  }

  /** `sep.join(parts)` */
  function Join(parts: seq<string>, sep: string): string
  {
    if |parts| == 0 then ""
    else if |parts| == 1 then parts[0]
    else parts[0] + sep + Join(parts[1..], sep)
  }

  /** A word in the sense of `str.split()`: non-empty, no whitespace. */
  predicate IsWord(w: string) {
    w != [] && forall i :: 0 <= i < |w| ==> !IsSpace(w[i])
  }

  /** Length of the run of non-whitespace characters at the front of `s`. */
  function WordLength(s: string): (n: nat)
    ensures n <= |s|
    ensures forall i :: 0 <= i < n ==> !IsSpace(s[i])
    ensures n == |s| || IsSpace(s[n])
  {
    if s == [] || IsSpace(s[0]) then 0 else 1 + WordLength(s[1..])
  }

  /** `s.split()`: the maximal runs of non-whitespace characters, in order. */
  function Split(s: string): (words: seq<string>)
    ensures forall w :: w in words ==> IsWord(w)
    decreases |s|
  {
    if s == [] then []
    else if IsSpace(s[0]) then Split(s[1..])
    else
      var n := WordLength(s);
      [s[..n]] + Split(s[n..])
  }

  lemma {:induction false} WordLengthOfWord(w: string, rest: string)
    requires IsWord(w)
    requires rest == [] || IsSpace(rest[0])
    ensures WordLength(w + rest) == |w|
  {
    if |w| > 1 {
      assert (w + rest)[1..] == w[1..] + rest;
      WordLengthOfWord(w[1..], rest);
    } else {
      assert (w + rest)[1..] == rest;
    }
  }

  /** All of `g` is whitespace. */
  predicate IsBlank(g: string) {
    forall i :: 0 <= i < |g| ==> IsSpace(g[i])
  }

  /** `gaps[0] + words[0] + gaps[1] + ... + words[n - 1] + gaps[n]` */
  function Interleave(gaps: seq<string>, words: seq<string>): (s: string)
    requires |gaps| == |words| + 1
    ensures |gaps[0]| <= |s| && s[..|gaps[0]|] == gaps[0]
  {
    if words == [] then gaps[0] else gaps[0] + words[0] + Interleave(gaps[1..], words[1..])
  }

  /**
   * `words` laid out with `gaps`: every gap is whitespace, the gaps between
   * two words are not empty, and every word is a word.
   */
  predicate Layout(gaps: seq<string>, words: seq<string>) {
    && |gaps| == |words| + 1
    && (forall i :: 0 <= i < |gaps| ==> IsBlank(gaps[i]))
    && (forall i :: 0 < i < |words| ==> gaps[i] != [])
    && (forall i :: 0 <= i < |words| ==> IsWord(words[i]))
  }

  /** The whitespace around and between the words of `s`, as `Split` finds them. */
  function Gaps(s: string): (gaps: seq<string>)
    ensures |gaps| == |Split(s)| + 1
    ensures s != [] && IsSpace(s[0]) ==> gaps[0] != []
    decreases |s|
  {
    if s == [] then [""]
    else if IsSpace(s[0]) then
      var g := Gaps(s[1..]);
      [[s[0]] + g[0]] + g[1..]
    else
      [""] + Gaps(s[WordLength(s)..])
  }

  lemma {:induction false} InterleavePrepend(x: string, gaps: seq<string>, words: seq<string>)
    requires |gaps| == |words| + 1
    ensures Interleave([x + gaps[0]] + gaps[1..], words) == x + Interleave(gaps, words)
  {
    var g' := [x + gaps[0]] + gaps[1..];
    assert g'[0] == x + gaps[0] && g'[1..] == gaps[1..];
    if words != [] {
      var rest := Interleave(gaps[1..], words[1..]);
      assert x + gaps[0] + words[0] + rest == x + (gaps[0] + words[0] + rest);
    }
  }

  /** `s` is its words laid out with its gaps. */
  lemma {:induction false} SplitLayout(s: string)
    ensures Layout(Gaps(s), Split(s))
    ensures Interleave(Gaps(s), Split(s)) == s
    decreases |s|
  {
    if s != [] {
      if IsSpace(s[0]) {
        SplitLayout(s[1..]);
        SpaceFirstLayout(s);
      } else {
        SplitLayout(s[WordLength(s)..]);
        WordFirstLayout(s);
      }
    }
  }

  lemma {:induction false} SpaceFirstLayout(s: string)
    requires s != [] && IsSpace(s[0])
    requires Layout(Gaps(s[1..]), Split(s[1..]))
    requires Interleave(Gaps(s[1..]), Split(s[1..])) == s[1..]
    ensures Layout(Gaps(s), Split(s))
    ensures Interleave(Gaps(s), Split(s)) == s
  {
    var t := s[1..];
    InterleavePrepend([s[0]], Gaps(t), Split(t));
    assert [s[0]] + t == s;
  }

  lemma {:induction false} WordFirstLayout(s: string)
    requires s != [] && !IsSpace(s[0])
    requires Layout(Gaps(s[WordLength(s)..]), Split(s[WordLength(s)..]))
    requires Interleave(Gaps(s[WordLength(s)..]), Split(s[WordLength(s)..])) == s[WordLength(s)..]
    ensures Layout(Gaps(s), Split(s))
    ensures Interleave(Gaps(s), Split(s)) == s
  {
    var n := WordLength(s);
    var t := s[n..];
    assert t != [] ==> IsSpace(t[0]);
    assert IsWord(s[..n]);
    assert Split(s) == [s[..n]] + Split(t) && Gaps(s) == [""] + Gaps(t);
    LayoutCons(s[..n], Gaps(t), Split(t));
    InterleaveCons(s[..n], Gaps(t), Split(t));
    assert s[..n] + t == s;
  }

  lemma {:induction false} LayoutCons(w: string, gaps: seq<string>, words: seq<string>)
    requires IsWord(w) && Layout(gaps, words)
    requires words != [] ==> gaps[0] != []
    ensures Layout([""] + gaps, [w] + words)
  {
    var gs, ws := [""] + gaps, [w] + words;
    assert forall i :: 0 < i < |gs| ==> gs[i] == gaps[i - 1];
    assert forall i :: 0 < i < |ws| ==> ws[i] == words[i - 1];
  }

  lemma {:induction false} InterleaveCons(w: string, gaps: seq<string>, words: seq<string>)
    requires |gaps| == |words| + 1
    ensures Interleave([""] + gaps, [w] + words) == w + Interleave(gaps, words)
  {
    assert ([""] + gaps)[1..] == gaps && ([w] + words)[1..] == words;
    assert "" + w == w;
  }

  lemma {:induction false} SplitBlankPrefix(g: string, t: string)
    requires IsBlank(g)
    ensures Split(g + t) == Split(t)
    decreases |g|
  {
    if g == [] {
      assert g + t == t;
    } else {
      assert (g + t)[1..] == g[1..] + t;
      SplitBlankPrefix(g[1..], t);
    }
  }

  lemma {:induction false} SplitWordFirst(w: string, t: string)
    requires IsWord(w)
    requires t == [] || IsSpace(t[0])
    ensures Split(w + t) == [w] + Split(t)
  {
    WordLengthOfWord(w, t);
    assert (w + t)[..|w|] == w && (w + t)[|w|..] == t;
  }

  /**
   * Conversely, any layout of words with whitespace gaps splits into exactly
   * those words, so `Split(s)` is the only word list that lays out to `s`.
   */
  lemma {:induction false} SplitOfLayout(gaps: seq<string>, words: seq<string>)
    requires Layout(gaps, words)
    ensures Split(Interleave(gaps, words)) == words
  {
    if words == [] {
      SplitBlankPrefix(gaps[0], []);
      assert gaps[0] + [] == gaps[0];
    } else {
      var rest := Interleave(gaps[1..], words[1..]);
      assert Layout(gaps[1..], words[1..]) by {
        assert forall i :: 0 <= i < |words| - 1 ==> words[1..][i] == words[i + 1];
        assert forall i :: 0 <= i < |gaps| - 1 ==> gaps[1..][i] == gaps[i + 1];
      }
      SplitOfLayout(gaps[1..], words[1..]);
      assert rest == [] || IsSpace(rest[0]) by {
        if |words| > 1 {
          assert gaps[1] != [] && rest[..|gaps[1]|] == gaps[1];
          assert rest[0] == gaps[1][0];
        } else {
          assert rest == gaps[1];
        }
      }
      SplitWordFirst(words[0], rest);
      assert gaps[0] + words[0] + rest == gaps[0] + (words[0] + rest);
      SplitBlankPrefix(gaps[0], words[0] + rest);
    }
  }

  /** Each word followed by one space: the fragments of the canned "typing" stream. */
  function WordFragments(words: seq<string>): (fragments: seq<string>)
    ensures |fragments| == |words|
    ensures forall i :: 0 <= i < |words| ==> fragments[i] == words[i] + " "
  {
    if words == [] then [] else [words[0] + " "] + WordFragments(words[1..])
  }

  /** The fragments concatenate to the words joined by single spaces, plus one trailing space. */
  lemma {:induction false} ConcatWordFragments(words: seq<string>)
    requires words != []
    ensures Concat(WordFragments(words)) == Join(words, " ") + " "
  {
    if |words| > 1 {
      ConcatWordFragments(words[1..]);
    }
  }

  /** Splitting the concatenated fragments gives back exactly the words. */
  lemma {:induction false} SplitWordFragments(words: seq<string>)
    requires forall w :: w in words ==> IsWord(w)
    ensures Split(Concat(WordFragments(words))) == words
  {
    if words != [] {
      var w := words[0];
      var rest := Concat(WordFragments(words[1..]));
      var s := Concat(WordFragments(words));
      assert s == w + (" " + rest);
      WordLengthOfWord(w, " " + rest);
      assert s[..|w|] == w;
      assert s[|w|..] == " " + rest;
      assert (" " + rest)[1..] == rest;
      SplitWordFragments(words[1..]);
    }
  }

  /** `s.split(sep)`: always at least one piece; the separators are removed. */
  function SplitOn(s: string, sep: char): (parts: seq<string>)
    ensures |parts| >= 1
    ensures forall p :: p in parts ==> sep !in p
  {
    if s == [] then [""]
    else
      var rest := SplitOn(s[1..], sep);
      if s[0] == sep then [""] + rest
      else [[s[0]] + rest[0]] + rest[1..]
  }

  /** Joining the pieces of `s.split(sep)` with `sep` gives `s` back. */
  lemma {:induction false} JoinSplitOn(s: string, sep: char)
    ensures Join(SplitOn(s, sep), [sep]) == s
  {
    if s != [] {
      var rest := SplitOn(s[1..], sep);
      JoinSplitOn(s[1..], sep);
      if s[0] != sep && |rest| > 1 {
        assert Join(rest, [sep]) == rest[0] + [sep] + Join(rest[1..], [sep]);
      }
    }
  }
}
