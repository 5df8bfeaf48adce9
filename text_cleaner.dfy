/**
 * cleanPdfText: three global regular-expression rewrites applied in turn,
 * each written here as the left-to-right scan the regular-expression engine
 * performs (leftmost match, greedy quantifiers, scanning resumes after a match).
 *
 *   1. `/[ \t]+/g -> ' '`                       CollapseBlanks
 *   2. `/(\w+)-\s*\n\s*(\w+)/g -> '$1$2'`       JoinHyphens
 *   3. `/\n{3,}/g -> '\n\n'`                    CollapseNewlines
 */
module TextCleaner {
  import opened Wrappers

  /** The ECMAScript class `\s` (WhiteSpace and LineTerminator); also what String.prototype.trim removes. */
  predicate IsSpace(c: char) {
    c == '\t' || c == '\n' || c == '\U{B}' || c == '\U{C}' || c == '\r' || c == ' ' ||
    c == '\U{A0}' || c == '\U{1680}' || ('\U{2000}' <= c <= '\U{200A}') ||
    c == '\U{2028}' || c == '\U{2029}' || c == '\U{202F}' || c == '\U{205F}' ||
    c == '\U{3000}' || c == '\U{FEFF}'
  }

  /** The ECMAScript class `\w` (without the `u` flag): ASCII letters, digits and underscore. */
  predicate IsWordChar(c: char) {
    ('a' <= c <= 'z') || ('A' <= c <= 'Z') || ('0' <= c <= '9') || c == '_'
  }

  /** The class `[ \t]`. */
  predicate IsBlank(c: char) {
    c == ' ' || c == '\t'
  }

  predicate IsNewline(c: char) {
    c == '\n'
  }

  /** No two adjacent space characters. */
  predicate NoDoubleSpace(s: string) {
    forall i :: 0 < i < |s| ==> !(s[i - 1] == ' ' && s[i] == ' ')
  }

  /** No run of three or more line feeds. */
  predicate NoTripleNewline(s: string) {
    forall i :: 2 <= i < |s| ==> !(s[i - 2] == '\n' && s[i - 1] == '\n' && s[i] == '\n')
  }

  /** The length of the longest prefix of `s` whose characters all satisfy `p` (a greedy `p+` or `p*`). */
  function Run(s: string, p: char -> bool): (n: nat)
    ensures n <= |s|
  {
    if s != [] && p(s[0]) then 1 + Run(s[1..], p) else 0
  }

  /** The run is made of `p` characters and the character after it, if any, fails `p`. */
  lemma {:induction false} RunShape(s: string, p: char -> bool)
    ensures forall i :: 0 <= i < Run(s, p) ==> p(s[i])
    ensures Run(s, p) < |s| ==> !p(s[Run(s, p)])
  {
    if s != [] && p(s[0]) {
      RunShape(s[1..], p);
      forall i | 0 < i < Run(s, p) ensures p(s[i]) {
        assert s[i] == s[1..][i - 1];
      }
    }
  }

  // ---------------------------------------------------------------- rewrite 1

  /** `/[ \t]+/g -> ' '`: every maximal run of spaces and tabs becomes one space. */
  function CollapseBlanks(s: string): (r: string)
    ensures |r| <= |s|
    ensures |r| > 0 <==> |s| > 0
    ensures |s| > 0 ==> (r[0] == ' ' <==> IsBlank(s[0]))
    ensures '\t' !in r
    ensures NoDoubleSpace(r)
    decreases |s|
  {
    if s == [] then []
    else if IsBlank(s[0]) then
      var rest := CollapseBlanks(s[Run(s, IsBlank)..]);
      RunShape(s, IsBlank);
      assert NoDoubleSpace([' '] + rest) by { ConsKeepsSingleSpaces(' ', rest); }
      [' '] + rest
    else
      var rest := CollapseBlanks(s[1..]);
      assert NoDoubleSpace([s[0]] + rest) by { ConsKeepsSingleSpaces(s[0], rest); }
      [s[0]] + rest
  }

  lemma ConsKeepsSingleSpaces(c: char, t: string)
    requires NoDoubleSpace(t)
    requires c == ' ' ==> t == [] || t[0] != ' '
    ensures NoDoubleSpace([c] + t)
  {
    var s := [c] + t;
    forall i | 0 < i < |s| ensures !(s[i - 1] == ' ' && s[i] == ' ') {
      if i > 1 { assert s[i - 1] == t[i - 2] && s[i] == t[i - 1]; }
    }
  }

  /** Text without tabs or double spaces is left as it is by rewrite 1 (so the rewrite is idempotent). */
  lemma {:induction false} CollapseBlanksIdentity(s: string)
    requires '\t' !in s && NoDoubleSpace(s)
    ensures CollapseBlanks(s) == s
    decreases |s|
  {
    if s != [] {
      var t := s[1..];
      assert '\t' !in t;
      assert NoDoubleSpace(t) by {
        forall i | 0 < i < |t| ensures !(t[i - 1] == ' ' && t[i] == ' ') {
          assert t[i - 1] == s[i] && t[i] == s[i + 1];
        }
      }
      CollapseBlanksIdentity(t);
      if IsBlank(s[0]) {
        assert s[0] == ' ';
        assert |s| > 1 ==> s[1] != ' ' && s[1] != '\t';
        assert Run(s, IsBlank) == 1;
      }
      assert s == [s[0]] + t;
    }
  }

  lemma CollapseBlanksIdempotent(s: string)
    ensures CollapseBlanks(CollapseBlanks(s)) == CollapseBlanks(s)
  {
    CollapseBlanksIdentity(CollapseBlanks(s));
  }

  // ---------------------------------------------------------------- rewrite 2

  /**
   * Where `/(\w+)-\s*\n\s*(\w+)/` matches at position 0 of `s`: the first word is
   * `s[..wordEnd]`, the hyphen is at `wordEnd`, the whitespace `s[wordEnd+1..nextStart]`
   * holds a line feed, and the second word is `s[nextStart..nextEnd]`.
   */
  datatype HyphenBreak = HyphenBreak(wordEnd: nat, nextStart: nat, nextEnd: nat)

  /**
   * The match of `/(\w+)-\s*\n\s*(\w+)/` at position 0. Both `\w+` are greedy and the
   * whitespace between them must be followed by a word character, so a match always
   * takes the whole word run, the whole whitespace run and the whole next word run.
   */
  function HyphenBreakAt(s: string): (m: Option<HyphenBreak>)
    ensures m.Some? ==> 0 < m.value.wordEnd && m.value.wordEnd + 1 < m.value.nextStart < m.value.nextEnd <= |s|
  {
    var q := Run(s, IsWordChar);
    if 0 < q < |s| && s[q] == '-' then BreakAfterGap(s, q, q + 1 + Run(s[q + 1..], IsSpace)) else None
  }

  /**
   * The rest of the match once the first word ends at the hyphen `q` and the white
   * space after it ends at `r`.
   */
  function BreakAfterGap(s: string, q: nat, r: nat): (m: Option<HyphenBreak>)
    requires 0 < q < r <= |s|
    ensures m.Some? ==> m.value.wordEnd == q && m.value.nextStart == r && q + 1 < r < m.value.nextEnd <= |s|
  {
    if '\n' in s[q + 1..r] && r < |s| && IsWordChar(s[r]) then
      Some(HyphenBreak(q, r, r + Run(s[r..], IsWordChar)))
    else None
  }

  /**
   * A match found at the start is a maximal word, a hyphen, white space holding a line
   * feed, and a maximal word.
   */
  lemma HyphenBreakShape(s: string)
    requires HyphenBreakAt(s).Some?
    ensures var HyphenBreak(q, r, e) := HyphenBreakAt(s).value;
      && (forall i :: 0 <= i < q ==> IsWordChar(s[i]))
      && s[q] == '-'
      && (forall i :: q < i < r ==> IsSpace(s[i]))
      && '\n' in s[q + 1..r]
      && (forall i :: r <= i < e ==> IsWordChar(s[i]))
      && (e < |s| ==> !IsWordChar(s[e]))
  {
    HyphenBreakRuns(s);
    var HyphenBreak(q, r, e) := HyphenBreakAt(s).value;
    RunShape(s, IsWordChar);
    RunShapeFrom(s, q + 1, IsSpace);
    RunShapeFrom(s, r, IsWordChar);
  }

  /** The three positions of a match are the ends of the runs that make it up. */
  lemma HyphenBreakRuns(s: string)
    requires HyphenBreakAt(s).Some?
    ensures var HyphenBreak(q, r, e) := HyphenBreakAt(s).value;
      && q == Run(s, IsWordChar) && s[q] == '-'
      && r == q + 1 + Run(s[q + 1..], IsSpace) && '\n' in s[q + 1..r]
      && e == r + Run(s[r..], IsWordChar)
  {
  }

  /** RunShape for the run that starts at position `k`. */
  lemma RunShapeFrom(s: string, k: nat, p: char -> bool)
    requires k <= |s|
    ensures forall i :: k <= i < k + Run(s[k..], p) ==> p(s[i])
    ensures k + Run(s[k..], p) < |s| ==> !p(s[k + Run(s[k..], p)])
  {
    RunShape(s[k..], p);
    forall i | k <= i < k + Run(s[k..], p) ensures p(s[i]) {
      assert s[i] == s[k..][i - k];
    }
  }

  /** Every character of a suffix occurs in the whole text. */
  lemma SuffixChars(s: string, k: nat)
    requires k <= |s|
    ensures forall c :: c in s[k..] ==> c in s
  {
    forall c | c in s[k..] ensures c in s {
      var i :| 0 <= i < |s[k..]| && s[k..][i] == c;
      assert s[k + i] == c;
    }
  }

  /** `/(\w+)-\s*\n\s*(\w+)/g -> '$1$2'`: a word split by a hyphen at a line break is joined. */
  function JoinHyphens(s: string): (r: string)
    ensures |r| <= |s|
    ensures |r| > 0 <==> |s| > 0
    ensures |s| > 0 ==> r[0] == s[0]
    ensures forall c :: c in r ==> c in s
    decreases |s|
  {
    if s == [] then []
    else match HyphenBreakAt(s)
      case Some(HyphenBreak(q, r, e)) =>
        var rest := JoinHyphens(s[e..]);
        SuffixChars(s, e);
        s[..q] + s[r..e] + rest
      case None =>
        var rest := JoinHyphens(s[1..]);
        SuffixChars(s, 1);
        [s[0]] + rest
  }

  predicate AllWordChars(w: string) {
    forall i :: 0 <= i < |w| ==> IsWordChar(w[i])
  }

  predicate AllSpace(w: string) {
    forall i :: 0 <= i < |w| ==> IsSpace(w[i])
  }

  /**
   * The rewrite joins `word-<whitespace with a line feed>word`: for instance
   * "amaz-\n ing" becomes "amazing", and scanning resumes after the second word.
   */
  lemma JoinHyphensJoins(w: string, gap: string, v: string, t: string)
    requires |w| > 0 && AllWordChars(w)
    requires AllSpace(gap) && '\n' in gap
    requires |v| > 0 && AllWordChars(v)
    requires t == [] || !IsWordChar(t[0])
    ensures JoinHyphens(w + "-" + gap + v + t) == w + v + JoinHyphens(t)
  {
    var s := w + "-" + gap + v + t;
    var q, r, e := |w|, |w| + 1 + |gap|, |w| + 1 + |gap| + |v|;
    assert s[..q] == w;
    assert s[q] == '-';
    assert s[q + 1..][..|gap|] == gap;
    assert s[r..][..|v|] == v;
    assert s[e..] == t;
    HyphenBreakOfParts(s, w, gap, v);
    assert s[..q] + s[r..e] == w + v;
  }

  lemma HyphenBreakOfParts(s: string, w: string, gap: string, v: string)
    requires |w| > 0 && AllWordChars(w)
    requires AllSpace(gap) && '\n' in gap
    requires |v| > 0 && AllWordChars(v)
    requires |w| + 1 + |gap| + |v| <= |s|
    requires s[..|w|] == w && s[|w|] == '-'
    requires s[|w| + 1..][..|gap|] == gap
    requires s[|w| + 1 + |gap|..][..|v|] == v
    requires |w| + 1 + |gap| + |v| < |s| ==> !IsWordChar(s[|w| + 1 + |gap| + |v|])
    ensures HyphenBreakAt(s) == Some(HyphenBreak(|w|, |w| + 1 + |gap|, |w| + 1 + |gap| + |v|))
  {
    var q, r := |w|, |w| + 1 + |gap|;
    RunOfPrefix(s, IsWordChar, w);
    assert Run(s, IsWordChar) == q && 0 < q < |s| && s[q] == '-';
    assert s[q + 1..][|gap|] == s[r] == v[0];
    RunOfPrefix(s[q + 1..], IsSpace, gap);
    assert q + 1 + Run(s[q + 1..], IsSpace) == r;
    assert s[q + 1..r] == gap;
    assert '\n' in s[q + 1..r] && r < |s| && IsWordChar(s[r]);
    RunOfPrefix(s[r..], IsWordChar, v);
    HyphenBreakFromRuns(s, q, r, r + |v|);
  }

  /** The match read off the three runs it is made of. */
  lemma HyphenBreakFromRuns(s: string, q: nat, r: nat, e: nat)
    requires Run(s, IsWordChar) == q && 0 < q < |s| && s[q] == '-'
    requires q + 1 + Run(s[q + 1..], IsSpace) == r
    requires '\n' in s[q + 1..r] && r < |s| && IsWordChar(s[r])
    requires r + Run(s[r..], IsWordChar) == e
    ensures HyphenBreakAt(s) == Some(HyphenBreak(q, r, e))
  {
    BreakAfterGapFromRun(s, q, r, e);
  }

  lemma BreakAfterGapFromRun(s: string, q: nat, r: nat, e: nat)
    requires 0 < q < r < |s|
    requires '\n' in s[q + 1..r] && IsWordChar(s[r])
    requires r + Run(s[r..], IsWordChar) == e
    ensures BreakAfterGap(s, q, r) == Some(HyphenBreak(q, r, e))
  {
  }

  /** The run of `p` at the start of `s` is exactly `u` when `u` is a prefix of `s` made of `p` characters and the next character fails `p`. */
  lemma RunOfPrefix(s: string, p: char -> bool, u: string)
    requires |u| <= |s| && s[..|u|] == u
    requires forall i :: 0 <= i < |u| ==> p(u[i])
    requires |u| < |s| ==> !p(s[|u|])
    ensures Run(s, p) == |u|
  {
    forall i | 0 <= i < |u| ensures p(s[i]) {
      assert s[i] == s[..|u|][i];
    }
    RunExact(s, p, |u|);
  }

  /** A run is exactly `n` long when the first `n` characters satisfy `p` and the next does not. */
  lemma {:induction false} RunExact(s: string, p: char -> bool, n: nat)
    requires n <= |s|
    requires forall i :: 0 <= i < n ==> p(s[i])
    requires n < |s| ==> !p(s[n])
    ensures Run(s, p) == n
    decreases n
  {
    if n > 0 {
      RunExact(s[1..], p, n - 1);
    }
  }

  lemma ConcatKeepsSingleSpaces(a: string, b: string)
    requires NoDoubleSpace(a) && NoDoubleSpace(b)
    requires a == [] || b == [] || a[|a| - 1] != ' ' || b[0] != ' '
    ensures NoDoubleSpace(a + b)
  {
    var s := a + b;
    forall i | 0 < i < |s| ensures !(s[i - 1] == ' ' && s[i] == ' ') {
      if i < |a| {
        assert s[i - 1] == a[i - 1] && s[i] == a[i];
      } else if i > |a| {
        assert s[i - 1] == b[i - 1 - |a|] && s[i] == b[i - |a|];
      }
    }
  }

  lemma SuffixKeepsSingleSpaces(s: string, k: nat)
    requires k <= |s| && NoDoubleSpace(s)
    ensures NoDoubleSpace(s[k..])
  {
    var t := s[k..];
    forall i | 0 < i < |t| ensures !(t[i - 1] == ' ' && t[i] == ' ') {
      assert t[i - 1] == s[k + i - 1] && t[i] == s[k + i];
    }
  }

  /** Joining hyphenated words never puts two spaces side by side. */
  lemma {:induction false} JoinHyphensKeepsSingleSpaces(s: string)
    requires NoDoubleSpace(s)
    ensures NoDoubleSpace(JoinHyphens(s))
    decreases |s|
  {
    if s != [] {
      match HyphenBreakAt(s)
      case Some(HyphenBreak(q, r, e)) =>
        SuffixKeepsSingleSpaces(s, e);
        JoinHyphensKeepsSingleSpaces(s[e..]);
        JoinAtBreakKeepsSingleSpaces(s);
      case None =>
        SuffixKeepsSingleSpaces(s, 1);
        JoinHyphensKeepsSingleSpaces(s[1..]);
        assert |s| > 1 ==> JoinHyphens(s[1..])[0] == s[1];
        ConcatKeepsSingleSpaces([s[0]], JoinHyphens(s[1..]));
    }
  }

  /** One joining step: the two joined words are all word characters, so no double space appears. */
  lemma JoinAtBreakKeepsSingleSpaces(s: string)
    requires HyphenBreakAt(s).Some?
    requires NoDoubleSpace(JoinHyphens(s[HyphenBreakAt(s).value.nextEnd..]))
    ensures NoDoubleSpace(JoinHyphens(s))
  {
    var HyphenBreak(q, r, e) := HyphenBreakAt(s).value;
    HyphenBreakShape(s);
    var words := s[..q] + s[r..e];
    assert forall i :: 0 <= i < |words| ==> IsWordChar(words[i]) by {
      forall i | 0 <= i < |words| ensures IsWordChar(words[i]) {
        if i < q { assert words[i] == s[i]; } else { assert words[i] == s[r + i - q]; }
      }
    }
    ConcatKeepsSingleSpaces(words, JoinHyphens(s[e..]));
  }

  // ---------------------------------------------------------------- rewrite 3

  /** `/\n{3,}/g -> '\n\n'`: every run of three or more line feeds becomes exactly two. */
  function CollapseNewlines(s: string): (r: string)
    ensures |r| <= |s|
    ensures |r| > 0 <==> |s| > 0
    ensures |s| > 0 ==> r[0] == s[0]
    ensures |r| >= 2 && r[0] == '\n' && r[1] == '\n' ==> |s| >= 2 && s[1] == '\n'
    ensures forall c :: c in r ==> c in s
    ensures NoTripleNewline(r)
    decreases |s|
  {
    if s == [] then []
    else
      var n := Run(s, IsNewline);
      RunShape(s, IsNewline);
      if n >= 3 then
        var rest := CollapseNewlines(s[n..]);
        SuffixChars(s, n);
        PairBeforeNoTriple(rest);
        "\n\n" + rest
      else
        var rest := CollapseNewlines(s[1..]);
        SuffixChars(s, 1);
        ConsNoTriple(s[0], rest);
        [s[0]] + rest
  }

  /** Two line feeds in front of text that does not start with one make no run of three. */
  lemma PairBeforeNoTriple(rest: string)
    requires NoTripleNewline(rest) && (rest == [] || rest[0] != '\n')
    ensures NoTripleNewline("\n\n" + rest)
  {
    var t := "\n\n" + rest;
    forall i | 2 <= i < |t| ensures !(t[i - 2] == '\n' && t[i - 1] == '\n' && t[i] == '\n') {
      if i <= 3 { assert t[2] == rest[0]; }
      else { assert t[i - 2] == rest[i - 4] && t[i - 1] == rest[i - 3] && t[i] == rest[i - 2]; }
    }
  }

  /** A character in front of text makes no run of three unless it is a line feed before two more. */
  lemma ConsNoTriple(c: char, rest: string)
    requires NoTripleNewline(rest)
    requires |rest| >= 2 && rest[0] == '\n' && rest[1] == '\n' ==> c != '\n'
    ensures NoTripleNewline([c] + rest)
  {
    var t := [c] + rest;
    forall i | 2 <= i < |t| ensures !(t[i - 2] == '\n' && t[i - 1] == '\n' && t[i] == '\n') {
      if i == 2 {
        assert t[1] == rest[0] && t[2] == rest[1];
      } else {
        assert t[i - 2] == rest[i - 3] && t[i - 1] == rest[i - 2] && t[i] == rest[i - 1];
      }
    }
  }

  /** Collapsing line feeds never puts two spaces side by side. */
  lemma {:induction false} CollapseNewlinesKeepsSingleSpaces(s: string)
    requires NoDoubleSpace(s)
    ensures NoDoubleSpace(CollapseNewlines(s))
    decreases |s|
  {
    if s != [] {
      var n := Run(s, IsNewline);
      if n >= 3 {
        SuffixKeepsSingleSpaces(s, n);
        CollapseNewlinesKeepsSingleSpaces(s[n..]);
        ConcatKeepsSingleSpaces("\n\n", CollapseNewlines(s[n..]));
      } else {
        SuffixKeepsSingleSpaces(s, 1);
        CollapseNewlinesKeepsSingleSpaces(s[1..]);
        assert |s| > 1 ==> CollapseNewlines(s[1..])[0] == s[1];
        ConcatKeepsSingleSpaces([s[0]], CollapseNewlines(s[1..]));
      }
    }
  }

  /** Text without a run of three line feeds is left as it is by rewrite 3 (so the rewrite is idempotent). */
  lemma {:induction false} CollapseNewlinesIdentity(s: string)
    requires NoTripleNewline(s)
    ensures CollapseNewlines(s) == s
    decreases |s|
  {
    if s != [] {
      var t := s[1..];
      assert NoTripleNewline(t) by {
        forall i | 2 <= i < |t| ensures !(t[i - 2] == '\n' && t[i - 1] == '\n' && t[i] == '\n') {
          assert t[i - 2] == s[i - 1] && t[i - 1] == s[i] && t[i] == s[i + 1];
        }
      }
      CollapseNewlinesIdentity(t);
      var n := Run(s, IsNewline);
      RunShape(s, IsNewline);
      if n >= 3 {
        assert false;
      }
      assert s == [s[0]] + t;
    }
  }

  // ---------------------------------------------------------------- the cleaner

  /** cleanPdfText: the three rewrites in order. */
  function CleanPdfText(text: string): (r: string)
    ensures |r| <= |text|
    ensures '\t' !in r
    ensures NoDoubleSpace(r)
    ensures NoTripleNewline(r)
  {
    var blanks := CollapseBlanks(text);
    var joined := JoinHyphens(blanks);
    JoinHyphensKeepsSingleSpaces(blanks);
    CollapseNewlinesKeepsSingleSpaces(joined);
    CollapseNewlines(joined)
  }

  /**
   * The example of the source's own comment: "amaz-\n ing", the word "amaz", a hyphen, a
   * line break and a space, then "ing", is cleaned to "amazing".
   */
  lemma CleanJoinsHyphenatedWord(s: string, w: string, gap: string, v: string)
    requires w == "amaz" && gap == "\n " && v == "ing"
    requires s == w + "-" + gap + v
    ensures CleanPdfText(s) == w + v
  {
    ExampleHasNoBlankRuns(s, w, gap, v);
    ExampleJoins(s, w, gap, v);
    ExampleKeepsNewlines(w, v);
  }

  lemma ExampleHasNoBlankRuns(s: string, w: string, gap: string, v: string)
    requires w == "amaz" && gap == "\n " && v == "ing"
    requires s == w + "-" + gap + v
    ensures CollapseBlanks(s) == s
  {
    assert s == ['a', 'm', 'a', 'z', '-', '\n', ' ', 'i', 'n', 'g'];
    assert NoDoubleSpace(s) by {
      forall i | 0 < i < |s| ensures !(s[i - 1] == ' ' && s[i] == ' ') {
        assert s[i - 1] != ' ' || s[i] != ' ';
      }
    }
    CollapseBlanksIdentity(s);
  }

  lemma ExampleJoins(s: string, w: string, gap: string, v: string)
    requires w == "amaz" && gap == "\n " && v == "ing"
    requires s == w + "-" + gap + v
    ensures JoinHyphens(s) == w + v
  {
    ExampleParts(w, gap, v);
    JoinHyphensJoins(w, gap, v, []);
    assert w + "-" + gap + v + [] == s;
    assert JoinHyphens([]) == [];
  }

  lemma ExampleParts(w: string, gap: string, v: string)
    requires w == "amaz" && gap == "\n " && v == "ing"
    ensures AllWordChars(w) && AllWordChars(v) && AllSpace(gap) && '\n' in gap
  {
    assert w == ['a', 'm', 'a', 'z'] && v == ['i', 'n', 'g'] && gap == ['\n', ' '];
    assert gap[0] == '\n';
  }

  lemma ExampleKeepsNewlines(w: string, v: string)
    requires w == "amaz" && v == "ing"
    ensures CollapseNewlines(w + v) == w + v
  {
    var t := w + v;
    assert t == ['a', 'm', 'a', 'z', 'i', 'n', 'g'];
    assert '\n' !in t;
    CollapseNewlinesIdentity(t);
  }
}
