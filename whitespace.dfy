/** Whitespace as Python 3 sees it in `str` values: the character class
    `\s` of a `str` regular expression and the characters `str.strip()`
    removes are the same set, so one predicate serves both. */
module Whitespace {

  /** `str.isspace()` for one character: the ASCII controls TAB..CR and
      FS..US, space, NEL, NO-BREAK SPACE and the Unicode space separators. */
  predicate IsWhitespace(c: char) {
    || c == ' '
    || '\t' <= c <= '\r'
    || '\U{1C}' <= c <= '\U{1F}'
    || c == '\U{85}'
    || c == '\U{A0}'
    || c == '\U{1680}'
    || '\U{2000}' <= c <= '\U{200A}'
    || c == '\U{2028}'
    || c == '\U{2029}'
    || c == '\U{202F}'
    || c == '\U{205F}'
    || c == '\U{3000}'
  }

  /** Every position of `s` from `lo` up to (not including) `hi` holds
      whitespace. */
  predicate WhitespaceBetween(s: string, lo: int, hi: int)
    requires 0 <= lo <= hi <= |s|
  {
    forall k :: lo <= k < hi ==> IsWhitespace(s[k])
  }

  /** Neither end of `s` is a whitespace character. */
  predicate NoEdgeWhitespace(s: string) {
    s == [] || (!IsWhitespace(s[0]) && !IsWhitespace(s[|s| - 1]))
  }

  /** `r` is `s` with some whitespace cut from each end and nothing else
      changed: `s` is whitespace, then `r`, then whitespace. */
  ghost predicate IsTrimmingOf(r: string, s: string) {
    exists i :: TrimsAt(r, s, i)
  }

  /** `r` is the piece of `s` that starts at position `i`
      (`r == s[i..i + |r|]`), and only whitespace lies before and after it. */
  predicate TrimsAt(r: string, s: string, i: int) {
    && 0 <= i && i + |r| <= |s|
    && WhitespaceBetween(s, 0, i)
    && WhitespaceBetween(s, i + |r|, |s|)
    && forall k :: 0 <= k < |r| ==> r[k] == s[i + k]
  }

  /** Whitespace in `s` occurs only as single spaces: every whitespace
      character is ' ' and no two whitespace characters are adjacent. */
  predicate SingleSpaced(s: string) {
    && (forall i :: 0 <= i < |s| && IsWhitespace(s[i]) ==> s[i] == ' ')
    && (forall i :: 0 <= i < |s| - 1 ==> NoRunAt(s, i))
  }

  /** Positions `i` and `i + 1` of `s` are not both whitespace. */
  predicate NoRunAt(s: string, i: int)
    requires 0 <= i < |s| - 1
  {
    !(IsWhitespace(s[i]) && IsWhitespace(s[i + 1]))
  }

  /** The characters of `s` that are not whitespace, in order. */
  function NonWhitespace(s: string): string {
    if s == [] then []
    else (if IsWhitespace(s[0]) then [] else [s[0]]) + NonWhitespace(s[1..])
  }

  /** The first position at or after `i` that does not hold whitespace,
      or `|s|` if there is none. */
  function SkipWhitespace(s: string, i: nat): (n: nat)
    requires i <= |s|
    ensures i <= n <= |s| && WhitespaceBetween(s, i, n)
    ensures n == |s| || !IsWhitespace(s[n])
    decreases |s| - i
  {
    if i < |s| && IsWhitespace(s[i]) then SkipWhitespace(s, i + 1) else i
  }

  /** Going back from `j`, but not below `lo`: the end of the last
      character that is not whitespace, or `lo` if there is none. */
  function SkipWhitespaceBack(s: string, j: nat, lo: nat): (n: nat)
    requires lo <= j <= |s|
    ensures lo <= n <= j && WhitespaceBetween(s, n, j)
    ensures n == lo || !IsWhitespace(s[n - 1])
  {
    if lo < j && IsWhitespace(s[j - 1]) then SkipWhitespaceBack(s, j - 1, lo) else j
  }

  /** `str.strip()`: whitespace is removed from both ends, and only there.
      Like CPython, it scans forward from the start, then backward from
      the end down to where the forward scan stopped. */
  function Strip(s: string): (r: string)
    ensures IsTrimmingOf(r, s)
    ensures NoEdgeWhitespace(r)
  {
    var i := SkipWhitespace(s, 0);
    var j := SkipWhitespaceBack(s, |s|, i);
    assert TrimsAt(s[i..j], s, i);
    s[i..j]
  }

  /** `re.sub(r"\s+", " ", s)`: every maximal run of whitespace becomes
      one space. */
  function CollapseWhitespace(s: string): (r: string)
    ensures SingleSpaced(r)
    ensures r == [] <==> s == []
    ensures r != [] ==> (IsWhitespace(r[0]) <==> IsWhitespace(s[0]))
    ensures r != [] ==> (IsWhitespace(r[|r| - 1]) <==> IsWhitespace(s[|s| - 1]))
  {
    if s == [] then []
    else if IsWhitespace(s[0]) then
      var t := s[SkipWhitespace(s, 0)..];
      SingleSpacedCons(' ', CollapseWhitespace(t));
      " " + CollapseWhitespace(t)
    else
      SingleSpacedCons(s[0], CollapseWhitespace(s[1..]));
      [s[0]] + CollapseWhitespace(s[1..])
  }

  /** One character put in front of a single-spaced string keeps it
      single-spaced unless it starts a whitespace run. */
  lemma SingleSpacedCons(x: char, c: string)
    requires SingleSpaced(c)
    requires IsWhitespace(x) ==> x == ' ' && (c == [] || !IsWhitespace(c[0]))
    ensures SingleSpaced([x] + c)
  {
    var r := [x] + c;
    forall k | 0 <= k < |r| - 1 ensures NoRunAt(r, k) {
      if k > 0 { assert NoRunAt(c, k - 1); }
    }
  }

  lemma {:induction false} NonWhitespaceAppend(a: string, b: string)
    ensures NonWhitespace(a + b) == NonWhitespace(a) + NonWhitespace(b)
  {
    if a == [] {
      assert a + b == b;
    } else {
      assert (a + b)[0] == a[0] && (a + b)[1..] == a[1..] + b;
      NonWhitespaceAppend(a[1..], b);
    }
  }

  lemma {:induction false} NonWhitespaceOfWhitespace(s: string)
    requires WhitespaceBetween(s, 0, |s|)
    ensures NonWhitespace(s) == []
  {
    if s != [] {
      assert forall k :: 0 <= k < |s| - 1 ==> s[1..][k] == s[k + 1];
      NonWhitespaceOfWhitespace(s[1..]);
    }
  }

  /** A whitespace stretch taken out on its own is all whitespace. */
  lemma WhitespaceSlice(s: string, lo: int, hi: int)
    requires 0 <= lo <= hi <= |s| && WhitespaceBetween(s, lo, hi)
    ensures WhitespaceBetween(s[lo..hi], 0, hi - lo)
  {
    forall k | 0 <= k < hi - lo ensures IsWhitespace(s[lo..hi][k]) {
      assert s[lo..hi][k] == s[lo + k];
    }
  }

  /** Cutting whitespace from the ends removes no character that is not
      whitespace. */
  lemma TrimmingKeepsNonWhitespace(r: string, s: string)
    requires IsTrimmingOf(r, s)
    ensures NonWhitespace(r) == NonWhitespace(s)
  {
    var i :| TrimsAt(r, s, i);
    NonWhitespaceSkip(s, i);
    var t := s[i..];
    var rest := t[|r|..];
    assert t == r + rest;
    NonWhitespaceAppend(r, rest);
    WhitespaceSlice(s, i + |r|, |s|);
    assert s[i + |r|..|s|] == rest;
    NonWhitespaceOfWhitespace(rest);
  }

  /** Skipping a whitespace prefix loses no character that is not
      whitespace. */
  lemma {:induction false} NonWhitespaceSkip(s: string, i: int)
    requires 0 <= i <= |s| && WhitespaceBetween(s, 0, i)
    ensures NonWhitespace(s[i..]) == NonWhitespace(s)
  {
    if i > 0 {
      assert IsWhitespace(s[0]);
      assert forall k :: 0 <= k < i - 1 ==> s[1..][k] == s[k + 1];
      NonWhitespaceSkip(s[1..], i - 1);
      assert s[1..][i - 1..] == s[i..];
    }
  }

  /** Stripping removes no character that is not whitespace. */
  lemma StripKeepsNonWhitespace(s: string)
    ensures NonWhitespace(Strip(s)) == NonWhitespace(s)
  {
    TrimmingKeepsNonWhitespace(Strip(s), s);
  }

  /** Collapsing whitespace runs removes, adds and reorders no character
      that is not whitespace. */
  lemma {:induction false} CollapseKeepsNonWhitespace(s: string)
    ensures NonWhitespace(CollapseWhitespace(s)) == NonWhitespace(s)
  {
    if s == [] {
    } else if IsWhitespace(s[0]) {
      var n := SkipWhitespace(s, 0);
      var t := s[n..];
      NonWhitespaceSkip(s, n);
      CollapseKeepsNonWhitespace(t);
      NonWhitespaceAppend(" ", CollapseWhitespace(t));
    } else {
      CollapseKeepsNonWhitespace(s[1..]);
      NonWhitespaceAppend([s[0]], CollapseWhitespace(s[1..]));
    }
  }

  /** A string already free of whitespace runs is left as it is. */
  lemma {:induction false} CollapseOfSingleSpaced(s: string)
    requires SingleSpaced(s)
    ensures CollapseWhitespace(s) == s
    decreases |s|
  {
    if s != [] {
      var t := s[1..];
      SingleSpacedSlice(s, 1, |s|);
      assert s[1..|s|] == t;
      CollapseOfSingleSpaced(t);
      HeadTail(s);
      if IsWhitespace(s[0]) {
        SingleSpaceRun(s);
        CollapseLoneSpace(s);
      } else {
        CollapseCons(s[0], t);
      }
    }
  }

  /** A non-empty string is its first character followed by the rest. */
  lemma HeadTail(s: string)
    requires s != []
    ensures s == [s[0]] + s[1..]
  {
  }

  /** A lone whitespace character at the front becomes one space. */
  lemma CollapseLoneSpace(s: string)
    requires s != [] && IsWhitespace(s[0]) && SkipWhitespace(s, 0) == 1
    ensures CollapseWhitespace(s) == " " + CollapseWhitespace(s[1..])
  {
  }

  /** In a single-spaced string a leading whitespace character is a lone
      space. */
  lemma SingleSpaceRun(s: string)
    requires SingleSpaced(s) && s != [] && IsWhitespace(s[0])
    ensures s[0] == ' ' && SkipWhitespace(s, 0) == 1
  {
    assert |s| == 1 || NoRunAt(s, 0);
    assert SkipWhitespace(s, 1) == 1;
  }

  /** Taking any contiguous piece keeps a string single-spaced. */
  lemma SingleSpacedSlice(s: string, i: int, j: int)
    requires 0 <= i <= j <= |s| && SingleSpaced(s)
    ensures SingleSpaced(s[i..j])
  {
    var t := s[i..j];
    forall k | 0 <= k < |t| - 1 ensures NoRunAt(t, k) {
      assert NoRunAt(s, i + k);
      assert t[k] == s[i + k] && t[k + 1] == s[i + k + 1];
    }
  }

  /** Stripping single-spaced text leaves it single-spaced. */
  lemma StripKeepsSingleSpaced(s: string)
    requires SingleSpaced(s)
    ensures SingleSpaced(Strip(s))
  {
    var i := SkipWhitespace(s, 0);
    SingleSpacedSlice(s, i, SkipWhitespaceBack(s, |s|, i));
  }

  /** A string with no whitespace at either end is its own strip. */
  lemma StripOfEdgeless(s: string)
    requires NoEdgeWhitespace(s)
    ensures Strip(s) == s
  {
  }

  /** `str.strip()` is idempotent. */
  lemma StripIdempotent(s: string)
    ensures Strip(Strip(s)) == Strip(s)
  {
    StripOfEdgeless(Strip(s));
  }

  /** Strip is the only way to cut whitespace from the ends of `s` that
      leaves no whitespace at either end. */
  lemma StripUnique(s: string, r: string)
    requires IsTrimmingOf(r, s) && NoEdgeWhitespace(r)
    ensures r == Strip(s)
  {
    TrimmingUnique(s, r, Strip(s));
  }

  lemma TrimmingUnique(s: string, r: string, r': string)
    requires IsTrimmingOf(r, s) && NoEdgeWhitespace(r)
    requires IsTrimmingOf(r', s) && NoEdgeWhitespace(r')
    ensures r == r'
  {
    var i :| TrimsAt(r, s, i);
    var i' :| TrimsAt(r', s, i');
    if r != [] {
      assert r[0] == s[i] && r[|r| - 1] == s[i + |r| - 1];
    }
    if r' != [] {
      assert r'[0] == s[i'] && r'[|r'| - 1] == s[i' + |r'| - 1];
    }
    if r != [] && r' != [] {
      SameCuts(s, i, i + |r|, i', i' + |r'|);
      assert forall k :: 0 <= k < |r| ==> r[k] == r'[k];
    } else if r != [] {
      WhitespaceAroundEmptyCut(s, i', i', i);
    } else if r' != [] {
      WhitespaceAroundEmptyCut(s, i, i, i');
    }
  }

  /** Two cuts that each keep a stretch with no whitespace at its ends
      and drop only whitespace are the same cut. */
  lemma SameCuts(s: string, i: int, j: int, i': int, j': int)
    requires 0 <= i < j <= |s| && 0 <= i' < j' <= |s|
    requires WhitespaceBetween(s, 0, i) && WhitespaceBetween(s, j, |s|)
    requires WhitespaceBetween(s, 0, i') && WhitespaceBetween(s, j', |s|)
    requires !IsWhitespace(s[i]) && !IsWhitespace(s[j - 1])
    requires !IsWhitespace(s[i']) && !IsWhitespace(s[j' - 1])
    ensures i == i' && j == j'
  {
  }

  /** If a cut keeps nothing and drops only whitespace, `s` is all
      whitespace. */
  lemma WhitespaceAroundEmptyCut(s: string, i: int, j: int, k: int)
    requires 0 <= i == j <= |s|
    requires WhitespaceBetween(s, 0, i) && WhitespaceBetween(s, j, |s|)
    requires 0 <= k < |s|
    ensures IsWhitespace(s[k])
  {
  }

  /** The first position at or after `i` that holds whitespace, or `|s|`
      if there is none: the end of the word starting at `i`. */
  function SkipWord(s: string, i: nat): (n: nat)
    requires i <= |s|
    ensures i <= n <= |s|
    ensures forall k :: i <= k < n ==> !IsWhitespace(s[k])
    ensures n == |s| || IsWhitespace(s[n])
    decreases |s| - i
  {
    if i < |s| && !IsWhitespace(s[i]) then SkipWord(s, i + 1) else i
  }

  /** `str.split()` with no argument: the maximal runs of characters that
      are not whitespace, in order. */
  function Words(s: string): (ws: seq<string>)
    ensures forall k :: 0 <= k < |ws| ==> ws[k] != []
    decreases |s|
  {
    var i := SkipWhitespace(s, 0);
    if i == |s| then []
    else
      var j := SkipWord(s, i);
      [s[i..j]] + Words(s[j..])
  }

  /** `" ".join(ws)`. */
  function JoinWords(ws: seq<string>): (r: string)
    ensures (forall k :: 0 <= k < |ws| ==> ws[k] != []) ==> (r == [] <==> ws == [])
  {
    if ws == [] then []
    else if |ws| == 1 then ws[0]
    else ws[0] + " " + JoinWords(ws[1..])
  }

  /** A leading run of whitespace collapses to one space in front of the
      collapse of the rest. */
  lemma CollapseLeading(s: string)
    ensures CollapseWhitespace(s)
         == (if 0 < SkipWhitespace(s, 0) then " " else "") + CollapseWhitespace(s[SkipWhitespace(s, 0)..])
  {
    if s != [] && !IsWhitespace(s[0]) {
      assert s[0..] == s;
    }
  }

  /** A word (no whitespace) in front passes through the collapse unchanged. */
  lemma {:induction false} CollapseWord(w: string, x: string)
    requires forall k :: 0 <= k < |w| ==> !IsWhitespace(w[k])
    ensures CollapseWhitespace(w + x) == w + CollapseWhitespace(x)
    decreases |w|
  {
    if w != [] {
      var v := w[1..];
      assert w + x == [w[0]] + (v + x);
      CollapseCons(w[0], v + x);
      CollapseWord(v, x);
      assert [w[0]] + (v + CollapseWhitespace(x)) == ([w[0]] + v) + CollapseWhitespace(x);
      assert w == [w[0]] + v;
    } else {
      assert w + x == x;
    }
  }

  /** A character that is not whitespace passes through the collapse. */
  lemma CollapseCons(c: char, x: string)
    requires !IsWhitespace(c)
    ensures CollapseWhitespace([c] + x) == [c] + CollapseWhitespace(x)
  {
    assert ([c] + x)[1..] == x;
  }

  /** Stripping a word with only whitespace around it leaves the word. */
  lemma StripAroundWord(p: string, w: string, c: string)
    requires WhitespaceBetween(p, 0, |p|) && WhitespaceBetween(c, 0, |c|)
    requires w != [] && NoEdgeWhitespace(w)
    ensures Strip(p + w + c) == w
  {
    var x := p + w + c;
    assert TrimsAt(w, x, |p|);
    StripUnique(x, w);
  }

  /** Stripping a word followed by single-spaced text that starts with
      a space keeps the word, one space, and the stripped text. */
  lemma StripWordThenSpaced(p: string, w: string, c: string)
    requires WhitespaceBetween(p, 0, |p|)
    requires w != [] && NoEdgeWhitespace(w)
    requires SingleSpaced(c) && c != [] && IsWhitespace(c[0]) && Strip(c) != []
    ensures Strip(p + w + c) == w + " " + Strip(c)
  {
    var t := Strip(c);
    var k :| TrimsAt(t, c, k);
    assert c[k] == t[0];
    assert NoRunAt(c, 0);
    assert k == 1;
    var x := p + w + c;
    var r := w + " " + t;
    forall m | 0 <= m < |r|
      ensures r[m] == x[|p| + m]
    {
      if m > |w| {
        assert r[m] == t[m - |w| - 1];
        assert x[|p| + m] == c[m - |w|];
      }
    }
    assert TrimsAt(r, x, |p|);
    StripUnique(x, r);
  }

  /** Stripping a word followed by text that strips to nothing leaves
      the word. */
  lemma StripWordThenBlank(p: string, w: string, c: string)
    requires WhitespaceBetween(p, 0, |p|)
    requires w != [] && NoEdgeWhitespace(w)
    requires Strip(c) == []
    ensures Strip(p + w + c) == w
  {
    var k :| TrimsAt([], c, k);
    forall m | 0 <= m < |c|
      ensures IsWhitespace(c[m])
    {
      WhitespaceAroundEmptyCut(c, k, k, m);
    }
    StripAroundWord(p, w, c);
  }

  /** Collapsing and stripping text that has a word after its leading
      whitespace gives that word, then a space and the collapsed and
      stripped remainder unless that is empty. */
  lemma StripCollapseStep(s: string)
    requires SkipWhitespace(s, 0) < |s|
    ensures var i := SkipWhitespace(s, 0);
            var j := SkipWord(s, i);
            var tail := Strip(CollapseWhitespace(s[j..]));
            Strip(CollapseWhitespace(s)) == if tail == [] then s[i..j] else s[i..j] + " " + tail
  {
    var i := SkipWhitespace(s, 0);
    var j := SkipWord(s, i);
    var w := s[i..j];
    var p: string := if 0 < i then " " else "";
    var c := CollapseWhitespace(s[j..]);
    WordSlice(s, i, j);
    SpaceAfterWord(s, j);
    CollapseAtWord(s, p);
    if Strip(c) == [] {
      StripWordThenBlank(p, w, c);
    } else {
      StripWordThenSpaced(p, w, c);
    }
  }

  /** The collapse of text whose leading whitespace (collapsed to `p`) is
      followed by a word. */
  lemma CollapseAtWord(s: string, p: string)
    requires SkipWhitespace(s, 0) < |s|
    requires p == if 0 < SkipWhitespace(s, 0) then " " else ""
    ensures var i := SkipWhitespace(s, 0);
            var j := SkipWord(s, i);
            CollapseWhitespace(s) == p + s[i..j] + CollapseWhitespace(s[j..])
  {
    var i := SkipWhitespace(s, 0);
    var j := SkipWord(s, i);
    CollapseLeading(s);
    CollapseFromWord(s, i, j);
    Concat3(p, s[i..j], CollapseWhitespace(s[j..]));
  }

  /** The collapse of a suffix of `s` that starts with the word
      `s[i..j]`. */
  lemma CollapseFromWord(s: string, i: int, j: int)
    requires 0 <= i <= j <= |s|
    requires forall k :: i <= k < j ==> !IsWhitespace(s[k])
    ensures CollapseWhitespace(s[i..]) == s[i..j] + CollapseWhitespace(s[j..])
  {
    SliceSplit(s, i, j);
    CollapseWord(s[i..j], s[j..]);
  }

  /** A suffix is the slice up to `j` followed by the suffix from `j`. */
  lemma SliceSplit(s: string, i: int, j: int)
    requires 0 <= i <= j <= |s|
    ensures s[i..] == s[i..j] + s[j..]
  {
  }

  /** A non-empty run of characters that are not whitespace has none at
      either end. */
  lemma WordSlice(s: string, i: int, j: int)
    requires 0 <= i < j <= |s|
    requires forall k :: i <= k < j ==> !IsWhitespace(s[k])
    ensures s[i..j] != [] && NoEdgeWhitespace(s[i..j])
  {
    assert s[i..j][0] == s[i] && s[i..j][j - i - 1] == s[j - 1];
  }

  /** What follows a word collapses to nothing or to text that starts
      with a space. */
  lemma SpaceAfterWord(s: string, j: int)
    requires 0 <= j <= |s|
    requires j == |s| || IsWhitespace(s[j])
    ensures var c := CollapseWhitespace(s[j..]); c == [] || IsWhitespace(c[0])
  {
    if j < |s| {
      assert s[j..][0] == s[j];
    }
  }

  /** Concatenation is associative. */
  lemma Concat3(a: string, b: string, c: string)
    ensures a + (b + c) == a + b + c
  {
  }

  /** `re.sub(r"\s+", " ", s)` keeps the words of `s`: each whitespace run
      becomes one space in its place, so words are neither joined nor
      split. With `SingleSpaced` and the edge clauses of
      `CollapseWhitespace` this fixes the collapse exactly. */
  lemma {:induction false} CollapseKeepsWords(s: string)
    ensures Words(CollapseWhitespace(s)) == Words(s)
    decreases |s|
  {
    var i := SkipWhitespace(s, 0);
    if i == |s| {
      BlankCollapse(s);
      WordsOfBlank(CollapseWhitespace(s));
    } else {
      var j := SkipWord(s, i);
      var p: string := if 0 < i then " " else "";
      CollapseAtWord(s, p);
      SpaceAfterWord(s, j);
      WordChars(s, i, j);
      WordsOfPrefixedWord(p, s[i..j], CollapseWhitespace(s[j..]));
      CollapseKeepsWords(s[j..]);
    }
  }

  /** Text made only of whitespace collapses to whitespace. */
  lemma BlankCollapse(s: string)
    requires SkipWhitespace(s, 0) == |s|
    ensures WhitespaceBetween(CollapseWhitespace(s), 0, |CollapseWhitespace(s)|)
  {
    CollapseLeading(s);
    assert s[|s|..] == [];
  }

  /** Text made only of whitespace has no words. */
  lemma WordsOfBlank(s: string)
    requires WhitespaceBetween(s, 0, |s|)
    ensures Words(s) == []
  {
    SkipWhitespaceTo(s, 0, |s|);
  }

  /** The characters of a word, seen through its slice. */
  lemma WordChars(s: string, i: int, j: int)
    requires 0 <= i <= j <= |s|
    requires forall k :: i <= k < j ==> !IsWhitespace(s[k])
    ensures forall k :: 0 <= k < j - i ==> !IsWhitespace(s[i..j][k])
  {
  }

  /** Whitespace, then a word, then text that is empty or starts with
      whitespace: the word comes first, then the words of the rest. */
  lemma WordsOfPrefixedWord(p: string, w: string, c: string)
    requires WhitespaceBetween(p, 0, |p|)
    requires w != [] && forall k :: 0 <= k < |w| ==> !IsWhitespace(w[k])
    requires c == [] || IsWhitespace(c[0])
    ensures Words(p + w + c) == [w] + Words(c)
  {
    var x := p + w + c;
    var a, b := |p|, |p| + |w|;
    ConcatParts(p, w, c);
    SkipWhitespaceTo(x, 0, a);
    SkipWordTo(x, a, b);
  }

  /** The three parts of `p + w + c`, by position and by slice. */
  lemma ConcatParts(p: string, w: string, c: string)
    ensures var x := p + w + c;
            && (forall k :: 0 <= k < |p| ==> x[k] == p[k])
            && (forall k :: 0 <= k < |w| ==> x[|p| + k] == w[k])
            && (forall k :: 0 <= k < |c| ==> x[|p| + |w| + k] == c[k])
            && x[|p|..|p| + |w|] == w && x[|p| + |w|..] == c
  {
  }

  /** `SkipWhitespace` stops at the first character that is not
      whitespace. */
  lemma {:induction false} SkipWhitespaceTo(s: string, i: nat, k: nat)
    requires i <= k <= |s| && WhitespaceBetween(s, i, k)
    requires k == |s| || !IsWhitespace(s[k])
    ensures SkipWhitespace(s, i) == k
    decreases k - i
  {
    if i < k {
      SkipWhitespaceTo(s, i + 1, k);
    }
  }

  /** `SkipWord` stops at the first whitespace character. */
  lemma {:induction false} SkipWordTo(s: string, i: nat, k: nat)
    requires i <= k <= |s|
    requires forall m :: i <= m < k ==> !IsWhitespace(s[m])
    requires k == |s| || IsWhitespace(s[k])
    ensures SkipWord(s, i) == k
    decreases k - i
  {
    if i < k {
      SkipWordTo(s, i + 1, k);
    }
  }
}
