/**
 * The text side of handleUpload: the decision to fall back to the OCR extractor,
 * the split of each cleaned page into paragraphs, and the loop that numbers the
 * paragraphs of all pages as chunks 0, 1, 2, ...
 */
module Upload {
  import opened Types
  import opened TextCleaner

  /**
   * The length JavaScript reports for a string: it counts UTF-16 code units, so a
   * character above U+FFFF (a surrogate pair) counts twice.
   */
  function CodeUnits(s: string): (n: nat)
    ensures |s| <= n <= 2 * |s|
  {
    if s == [] then 0 else (if s[0] as int >= 0x10000 then 2 else 1) + CodeUnits(s[1..])
  }

  lemma {:induction false} CodeUnitsAppend(a: string, b: string)
    ensures CodeUnits(a + b) == CodeUnits(a) + CodeUnits(b)
    decreases |a|
  {
    if a != [] {
      var unit := if a[0] as int >= 0x10000 then 2 else 1;
      assert CodeUnits(a) == unit + CodeUnits(a[1..]);
      assert (a + b)[0] == a[0] && (a + b)[1..] == a[1..] + b;
      assert CodeUnits(a + b) == unit + CodeUnits(a[1..] + b);
      CodeUnitsAppend(a[1..], b);
    } else {
      assert a + b == b;
    }
  }

  /** Below U+10000 every character is one code unit. */
  lemma {:induction false} CodeUnitsBmp(s: string)
    requires forall i :: 0 <= i < |s| ==> s[i] as int < 0x10000
    ensures CodeUnits(s) == |s|
    decreases |s|
  {
    if s != [] {
      assert forall i :: 0 <= i < |s| - 1 ==> s[1..][i] == s[i + 1];
      CodeUnitsBmp(s[1..]);
    }
  }

  /** Above U+FFFF every character is two code units. */
  lemma {:induction false} CodeUnitsAstral(s: string)
    requires forall i :: 0 <= i < |s| ==> s[i] as int >= 0x10000
    ensures CodeUnits(s) == 2 * |s|
    decreases |s|
  {
    if s != [] {
      assert forall i :: 0 <= i < |s| - 1 ==> s[1..][i] == s[i + 1];
      CodeUnitsAstral(s[1..]);
    }
  }

  /** A line feed at `i`, a line feed at `j` and only whitespace between them: a blank line. */
  predicate BlankLineAt(t: string, i: int, j: int) {
    0 <= i < j < |t| && t[i] == '\n' && t[j] == '\n' && forall k :: i < k < j ==> IsSpace(t[k])
  }

  /** No substring of `t` matches `/\n\s*\n/`. */
  predicate NoBlankLine(t: string) {
    forall i, j :: 0 <= i < j < |t| ==> !BlankLineAt(t, i, j)
  }

  /** A match of `/\n\s*\n/` as a whole string. */
  predicate IsSeparator(sep: string) {
    |sep| >= 2 && BlankLineAt(sep, 0, |sep| - 1)
  }

  /**
   * Scanning the whitespace run of `s` from position `i`: the position of its last line
   * feed, or `last` (the last one seen before `i`) where the rest of the run has none.
   */
  function ScanGap(s: string, i: nat, last: nat): (r: nat)
    requires i <= |s|
    ensures r == last || (i <= r < |s| && s[r] == '\n')
    decreases |s| - i
  {
    if i < |s| && IsSpace(s[i]) then ScanGap(s, i + 1, if s[i] == '\n' then i else last) else last
  }

  /** A line feed the scan finds past `i` has only whitespace before it from `i` on. */
  lemma ScanGapSpaces(s: string, i: nat, last: nat)
    requires i <= |s|
    ensures ScanGap(s, i, last) != last ==> forall m :: i <= m <= ScanGap(s, i, last) ==> IsSpace(s[m])
    decreases |s| - i
  {
    if i < |s| && IsSpace(s[i]) {
      ScanGapSpaces(s, i + 1, if s[i] == '\n' then i else last);
    }
  }

  /** The scan reaches every line feed that only whitespace separates from `i`. */
  lemma ScanGapReaches(s: string, i: nat, last: nat, p: nat)
    requires i <= p < |s| && s[p] == '\n' && forall m :: i <= m <= p ==> IsSpace(s[m])
    ensures ScanGap(s, i, last) >= p
    decreases p - i
  {
    if i < p {
      ScanGapReaches(s, i + 1, if s[i] == '\n' then i else last, p);
    }
  }

  /**
   * The length of the match of `/\n\s*\n/` at position 0 of `s`, 0 where there is none.
   * The greedy `\s*` takes the whole whitespace run and backs off to its last line feed.
   */
  function SeparatorAt(s: string): (n: nat)
    ensures n <= |s|
  {
    if s == [] || s[0] != '\n' then 0
    else
      var r := ScanGap(s, 1, 0);
      if r == 0 then 0 else r + 1
  }

  /** A match is a blank line: line feed, whitespace, line feed. */
  lemma SeparatorShape(s: string)
    ensures SeparatorAt(s) > 0 ==> IsSeparator(s[..SeparatorAt(s)])
  {
    if s != [] && s[0] == '\n' {
      ScanGapSpaces(s, 1, 0);
    }
  }

  /** The match is the longest blank line at position 0: every blank line there ends inside it. */
  lemma SeparatorLongest(s: string, j: int)
    requires BlankLineAt(s, 0, j)
    ensures j < SeparatorAt(s)
  {
    ScanGapReaches(s, 1, 0, j);
  }

  /**
   * `s.split(/\n\s*\n/)`, scanning left to right: `piece` is the text gathered since the
   * last match; a match at the head of `s` ends the piece, other characters extend it.
   */
  function SplitFrom(s: string, piece: string): (r: seq<string>)
    ensures |r| >= 1
    decreases |s|
  {
    if s == [] then [piece]
    else
      var n := SeparatorAt(s);
      if n > 0 then [piece] + SplitFrom(s[n..], [])
      else SplitFrom(s[1..], piece + [s[0]])
  }

  /** The matches the scan of `SplitFrom` removes, in order. */
  function SeparatorsFrom(s: string, piece: string): (seps: seq<string>)
    ensures |seps| == |SplitFrom(s, piece)| - 1
    decreases |s|
  {
    if s == [] then []
    else
      var n := SeparatorAt(s);
      if n > 0 then [s[..n]] + SeparatorsFrom(s[n..], [])
      else SeparatorsFrom(s[1..], piece + [s[0]])
  }

  /** `s.split(/\n\s*\n/)`: the pieces between the leftmost, non-overlapping matches. */
  function SplitParagraphs(s: string): (r: seq<string>)
    ensures |r| >= 1
  {
    SplitFrom(s, [])
  }

  /** The matches themselves, in order: what `split` removes. */
  function SeparatorsOf(s: string): (seps: seq<string>)
    ensures |seps| == |SplitParagraphs(s)| - 1
  {
    SeparatorsFrom(s, [])
  }

  /** No match of the regular expression starts inside `piece`, with `s` still to come after it. */
  predicate NoMatchIn(piece: string, s: string) {
    forall i :: 0 <= i < |piece| ==> SeparatorAt(piece[i..] + s) == 0
  }

  /** A piece that no match starts inside holds no blank line. */
  lemma NoMatchNoBlankLine(piece: string, s: string)
    requires NoMatchIn(piece, s)
    ensures NoBlankLine(piece)
  {
    forall i, j | 0 <= i < j < |piece| ensures !BlankLineAt(piece, i, j) {
      if BlankLineAt(piece, i, j) {
        var t := piece[i..] + s;
        assert forall m :: 0 <= m <= j - i ==> t[m] == piece[i + m];
        SeparatorLongest(t, j - i);
        assert false;
      }
    }
  }

  /** Moving one unmatched character from the text into the piece keeps `NoMatchIn`. */
  lemma NoMatchStep(piece: string, s: string)
    requires s != [] && SeparatorAt(s) == 0 && NoMatchIn(piece, s)
    ensures NoMatchIn(piece + [s[0]], s[1..])
  {
    var p := piece + [s[0]];
    forall i | 0 <= i < |p| ensures SeparatorAt(p[i..] + s[1..]) == 0 {
      if i < |piece| {
        assert p[i..] + s[1..] == piece[i..] + s;
      } else {
        assert p[i..] + s[1..] == s;
      }
    }
  }

  /** At a match, the piece ends and the split goes on after the match. */
  lemma SplitAtMatch(s: string, piece: string)
    requires s != [] && SeparatorAt(s) > 0
    ensures SplitFrom(s, piece)[0] == piece
    ensures SplitFrom(s, piece)[1..] == SplitFrom(s[SeparatorAt(s)..], [])
  {
    var rest := SplitFrom(s[SeparatorAt(s)..], []);
    assert ([piece] + rest)[1..] == rest;
  }

  /** At a match, the match is the next separator and the rest come after it. */
  lemma SeparatorsAtMatch(s: string, piece: string)
    requires s != [] && SeparatorAt(s) > 0
    ensures SeparatorsFrom(s, piece)[0] == s[..SeparatorAt(s)]
    ensures SeparatorsFrom(s, piece)[1..] == SeparatorsFrom(s[SeparatorAt(s)..], [])
  {
    var rest := SeparatorsFrom(s[SeparatorAt(s)..], []);
    assert ([s[..SeparatorAt(s)]] + rest)[1..] == rest;
  }

  /** No piece the scan produces holds a blank line. */
  lemma {:induction false} SplitFromNoBlankLine(s: string, piece: string)
    requires NoMatchIn(piece, s)
    ensures forall t :: t in SplitFrom(s, piece) ==> NoBlankLine(t)
    decreases |s|
  {
    if s == [] {
      NoMatchNoBlankLine(piece, s);
    } else if SeparatorAt(s) > 0 {
      NoMatchNoBlankLine(piece, s);
      SplitAtMatch(s, piece);
      SplitFromNoBlankLine(s[SeparatorAt(s)..], []);
      var pieces := SplitFrom(s, piece);
      forall t | t in pieces ensures NoBlankLine(t) {
        if t != pieces[0] { assert t in pieces[1..]; }
      }
    } else {
      NoMatchStep(piece, s);
      SplitFromNoBlankLine(s[1..], piece + [s[0]]);
    }
  }

  /** No piece of the split holds a blank line: the split happens at every match. */
  lemma SplitPiecesNoBlankLine(s: string)
    ensures forall t :: t in SplitParagraphs(s) ==> NoBlankLine(t)
  {
    SplitFromNoBlankLine(s, []);
  }

  /** Every separator the scan removes is a blank line. */
  lemma {:induction false} SeparatorsFromShape(s: string, piece: string)
    ensures forall sep :: sep in SeparatorsFrom(s, piece) ==> IsSeparator(sep)
    decreases |s|
  {
    if s != [] {
      if SeparatorAt(s) > 0 {
        SeparatorShape(s);
        SeparatorsAtMatch(s, piece);
        SeparatorsFromShape(s[SeparatorAt(s)..], []);
        var seps := SeparatorsFrom(s, piece);
        forall sep | sep in seps ensures IsSeparator(sep) {
          if sep != seps[0] { assert sep in seps[1..]; }
        }
      } else {
        SeparatorsFromShape(s[1..], piece + [s[0]]);
      }
    }
  }

  /** Every separator the split removes is a blank line: line feed, whitespace, line feed. */
  lemma SeparatorsShape(s: string)
    ensures forall sep :: sep in SeparatorsOf(s) ==> IsSeparator(sep)
  {
    SeparatorsFromShape(s, []);
  }

  /** `pieces[0] + seps[0] + pieces[1] + ... + pieces[|seps|]`. */
  function JoinPieces(pieces: seq<string>, seps: seq<string>): string
    requires |pieces| == |seps| + 1
    decreases |seps|
  {
    if seps == [] then pieces[0] else pieces[0] + seps[0] + JoinPieces(pieces[1..], seps[1..])
  }

  /** The scan loses nothing but the separators: joining gives back the piece and the text. */
  lemma {:induction false} SplitFromRoundTrip(s: string, piece: string)
    ensures JoinPieces(SplitFrom(s, piece), SeparatorsFrom(s, piece)) == piece + s
    decreases |s|
  {
    if s == [] {
      assert piece + s == piece;
    } else if SeparatorAt(s) > 0 {
      var n := SeparatorAt(s);
      SplitAtMatch(s, piece);
      SeparatorsAtMatch(s, piece);
      SplitFromRoundTrip(s[n..], []);
      JoinAtMatch(SplitFrom(s, piece), SeparatorsFrom(s, piece), piece, s, n);
    } else {
      SplitFromRoundTrip(s[1..], piece + [s[0]]);
      assert piece + [s[0]] + s[1..] == piece + s;
    }
  }

  /** The join of a split whose first separator is the `n` characters at the head of `s`. */
  lemma JoinAtMatch(pieces: seq<string>, seps: seq<string>, piece: string, s: string, n: nat)
    requires |pieces| == |seps| + 1 && |seps| >= 1 && n <= |s|
    requires pieces[0] == piece && seps[0] == s[..n]
    requires JoinPieces(pieces[1..], seps[1..]) == [] + s[n..]
    ensures JoinPieces(pieces, seps) == piece + s
  {
    assert [] + s[n..] == s[n..];
    assert s[..n] + s[n..] == s;
  }

  /** Putting the matches back between the pieces gives the text back: `split` loses only the separators. */
  lemma SplitRoundTrip(s: string)
    ensures JoinPieces(SplitParagraphs(s), SeparatorsOf(s)) == s
  {
    SplitFromRoundTrip(s, []);
    assert [] + s == s;
  }

  lemma SliceKeepsNoBlankLine(t: string, a: nat, b: nat)
    requires a <= b <= |t| && NoBlankLine(t)
    ensures NoBlankLine(t[a..b])
  {
    forall i, j | BlankLineAt(t[a..b], i, j) ensures BlankLineAt(t, a + i, a + j) {
      assert forall m :: i <= m <= j ==> t[a..b][m] == t[a + m];
    }
  }

  /** The leading whitespace removed by `trim`. */
  function TrimStart(t: string): (r: string)
    ensures |r| <= |t| && r == t[|t| - |r|..]
    ensures r == [] || !IsSpace(r[0])
    ensures forall i :: 0 <= i < |t| - |r| ==> IsSpace(t[i])
  {
    RunShape(t, IsSpace);
    t[Run(t, IsSpace)..]
  }

  /** The trailing whitespace removed by `trim`. */
  function TrimEnd(t: string): (r: string)
    ensures |r| <= |t| && r == t[..|r|]
    ensures r == [] || !IsSpace(r[|r| - 1])
    ensures forall i :: |r| <= i < |t| ==> IsSpace(t[i])
  {
    if t != [] && IsSpace(t[|t| - 1]) then TrimEnd(t[..|t| - 1]) else t
  }

  /** No whitespace or line terminator at either end. */
  predicate Trimmed(t: string) {
    t == [] || (!IsSpace(t[0]) && !IsSpace(t[|t| - 1]))
  }

  /**
   * String.prototype.trim: the result is a slice of `t` with only whitespace and line
   * terminators outside it, and it neither starts nor ends with one.
   */
  function Trim(t: string): (r: string)
    ensures exists a, b ::
      && 0 <= a <= b <= |t| && r == t[a..b]
      && (forall i :: 0 <= i < a ==> IsSpace(t[i]))
      && (forall i :: b <= i < |t| ==> IsSpace(t[i]))
    ensures Trimmed(r)
  {
    var front := TrimStart(t);
    var r := TrimEnd(front);
    var a := |t| - |front|;
    assert r == t[a..a + |r|];
    assert forall i :: a + |r| <= i < |t| ==> t[i] == front[i - a];
    assert (forall i :: 0 <= i < a ==> IsSpace(t[i])) && (forall i :: a + |r| <= i < |t| ==> IsSpace(t[i]));
    r
  }

  /** A string that neither starts nor ends with whitespace is its own trim. */
  lemma TrimTrimmed(t: string)
    requires Trimmed(t)
    ensures Trim(t) == t
  {
    RunShape(t, IsSpace);
    assert TrimStart(t) == t;
  }

  /** Trimming cuts no line in two, so it brings in no blank line. */
  lemma TrimKeepsNoBlankLine(t: string)
    requires NoBlankLine(t)
    ensures NoBlankLine(Trim(t))
  {
    var front := TrimStart(t);
    var a := |t| - |front|;
    assert Trim(t) == t[a..a + |Trim(t)|];
    SliceKeepsNoBlankLine(t, a, a + |Trim(t)|);
  }

  /**
   * `.map(t => t.trim()).filter(t => t.length > 5)`, one piece at a time; what it keeps
   * is stated by KeepParagraphsMembers and KeepParagraphsAppend.
   */
  function KeepParagraphs(pieces: seq<string>): (r: seq<string>)
    ensures |r| <= |pieces|
  {
    if pieces == [] then []
    else
      var t := Trim(pieces[0]);
      var rest := KeepParagraphs(pieces[1..]);
      if CodeUnits(t) > 5 then [t] + rest else rest
  }

  /**
   * The kept paragraphs are trimmed pieces longer than five code units, none invented,
   * and every piece whose trimmed text is longer than five code units is among them.
   */
  lemma {:induction false} KeepParagraphsMembers(pieces: seq<string>)
    ensures forall t :: t in KeepParagraphs(pieces) ==> CodeUnits(t) > 5 && exists p :: p in pieces && t == Trim(p)
    ensures forall p :: p in pieces && CodeUnits(Trim(p)) > 5 ==> Trim(p) in KeepParagraphs(pieces)
  {
    if pieces != [] {
      var head, tail := pieces[0], pieces[1..];
      KeepParagraphsMembers(tail);
      var r, rest := KeepParagraphs(pieces), KeepParagraphs(tail);
      assert pieces == [head] + tail;
      assert forall t :: t in r ==> t in rest || (t == Trim(head) && CodeUnits(t) > 5);
      assert CodeUnits(Trim(head)) > 5 ==> Trim(head) in r;
      assert forall t :: t in rest ==> t in r;
      forall t | t in r ensures exists p :: p in pieces && t == Trim(p) {
        if t in rest {
          var p :| p in tail && t == Trim(p);
          assert p in pieces;
        } else {
          assert head in pieces;
        }
      }
    }
  }

  /** Filtering a concatenation filters each part: the paragraphs keep the order of the pieces. */
  lemma {:induction false} KeepParagraphsAppend(a: seq<string>, b: seq<string>)
    ensures KeepParagraphs(a + b) == KeepParagraphs(a) + KeepParagraphs(b)
    decreases |a|
  {
    if a != [] {
      var t := Trim(a[0]);
      assert (a + b)[0] == a[0] && (a + b)[1..] == a[1..] + b;
      KeepParagraphsAppend(a[1..], b);
      var x, y := KeepParagraphs(a[1..]), KeepParagraphs(b);
      if CodeUnits(t) > 5 {
        assert [t] + (x + y) == ([t] + x) + y;
      }
    } else {
      assert a + b == b;
    }
  }

  /** The paragraphs of one page's text (App.tsx: cleanPdfText, split, trim, filter). */
  function Paragraphs(text: string): (r: seq<string>)
    ensures |r| <= |SplitParagraphs(CleanPdfText(text))|
  {
    KeepParagraphs(SplitParagraphs(CleanPdfText(text)))
  }

  /**
   * A paragraph is longer than five code units, starts and ends with a non-space
   * character and holds no blank line.
   */
  lemma ParagraphsShape(text: string)
    ensures forall i :: 0 <= i < |Paragraphs(text)| ==>
      CodeUnits(Paragraphs(text)[i]) > 5 && Trimmed(Paragraphs(text)[i]) && NoBlankLine(Paragraphs(text)[i])
  {
    var pieces := SplitParagraphs(CleanPdfText(text));
    var r := Paragraphs(text);
    SplitPiecesNoBlankLine(CleanPdfText(text));
    KeepParagraphsMembers(pieces);
    forall i | 0 <= i < |r|
      ensures CodeUnits(r[i]) > 5 && Trimmed(r[i]) && NoBlankLine(r[i])
    {
      assert r[i] in r;
      var p :| p in pieces && r[i] == Trim(p);
      TrimKeepsNoBlankLine(p);
    }
  }

  /**
   * A paragraph of five mathematical italic letters is five characters but ten UTF-16
   * code units long, and the filter keeps it.
   */
  lemma AstralParagraphKept(w: string)
    requires w == "\U{1D44E}\U{1D44F}\U{1D450}\U{1D451}\U{1D452}"
    ensures |w| == 5 && CodeUnits(w) == 10
    ensures KeepParagraphs([w]) == [w]
  {
    CodeUnitsAstral(w);
    TrimTrimmed(w);
    KeepParagraphsSingle(w);
  }

  /** A single piece gives its trim when that is longer than five code units, and nothing otherwise. */
  lemma KeepParagraphsSingle(p: string)
    ensures KeepParagraphs([p]) == if CodeUnits(Trim(p)) > 5 then [Trim(p)] else []
  {
    assert [p][0] == p && [p][1..] == [];
    assert [Trim(p)] + [] == [Trim(p)];
  }

  function PageNumbers(pages: seq<Page>): set<int> {
    set p | p in pages :: p.page
  }

  function TagWith(paras: seq<string>, page: int): (r: seq<(string, int)>)
    ensures |r| == |paras|
    ensures forall i :: 0 <= i < |r| ==> r[i] == (paras[i], page)
  {
    seq(|paras|, i requires 0 <= i < |paras| => (paras[i], page))
  }

  /** The paragraphs of all pages, in page order, each with the page it came from. */
  function Tagged(pages: seq<Page>): (r: seq<(string, int)>)
    ensures forall i :: 0 <= i < |r| ==> CodeUnits(r[i].0) > 5
  {
    if pages == [] then []
    else
      var last := pages[|pages| - 1];
      var paras := Paragraphs(last.text);
      ParagraphsShape(last.text);
      Tagged(pages[..|pages| - 1]) + TagWith(paras, last.page)
  }

  /** `para` is a paragraph of one of `pages` whose number is `n`. */
  predicate FromPage(pages: seq<Page>, para: string, n: int) {
    exists p :: p in pages && p.page == n && para in Paragraphs(p.text)
  }

  /** Every tagged paragraph is a paragraph of a page that carries the number it is tagged with. */
  lemma {:induction false} TaggedPages(pages: seq<Page>)
    ensures forall i :: 0 <= i < |Tagged(pages)| ==> FromPage(pages, Tagged(pages)[i].0, Tagged(pages)[i].1)
  {
    if pages != [] {
      var front := pages[..|pages| - 1];
      var last := pages[|pages| - 1];
      TaggedPages(front);
      var r := Tagged(pages);
      var paras := Paragraphs(last.text);
      forall i | 0 <= i < |r| ensures FromPage(pages, r[i].0, r[i].1) {
        assert r == Tagged(front) + TagWith(paras, last.page);
        if i < |Tagged(front)| {
          assert r[i] == Tagged(front)[i];
          var p :| p in front && p.page == r[i].1 && r[i].0 in Paragraphs(p.text);
          assert p in pages;
        } else {
          assert r[i] == (paras[i - |Tagged(front)|], last.page);
          assert last in pages && r[i].0 in Paragraphs(last.text);
        }
      }
    }
  }

  /** Hence every tagged paragraph carries the number of one of the pages. */
  lemma TaggedPageNumbers(pages: seq<Page>)
    ensures forall i :: 0 <= i < |Tagged(pages)| ==> Tagged(pages)[i].1 in PageNumbers(pages)
  {
    TaggedPages(pages);
    var r := Tagged(pages);
    forall i | 0 <= i < |r| ensures r[i].1 in PageNumbers(pages) {
      assert FromPage(pages, r[i].0, r[i].1);
      var p :| p in pages && p.page == r[i].1 && r[i].0 in Paragraphs(p.text);
    }
  }

  /** The chunk list of a book made from `pages`: paragraph k of the whole document gets id k. */
  function ChunksOf(pages: seq<Page>): (r: seq<Chunk>)
    ensures Numbered(r)
    ensures |r| == |Tagged(pages)|
  {
    var tagged := Tagged(pages);
    seq(|tagged|, i requires 0 <= i < |tagged| => Chunk(i, tagged[i].0, tagged[i].1))
  }

  /**
   * The chunks of an uploaded book: numbered 0, 1, 2, ... in order, each longer than
   * five code units, each tagged with the number of a page it was read from.
   */
  lemma ChunksOfWellFormed(pages: seq<Page>)
    ensures Numbered(ChunksOf(pages))
    ensures forall i :: 0 <= i < |ChunksOf(pages)| ==>
      CodeUnits(ChunksOf(pages)[i].text) > 5 && ChunksOf(pages)[i].page in PageNumbers(pages)
  {
    TaggedPageNumbers(pages);
  }

  /** Every chunk's id is its position in the list. */
  predicate Numbered(chunks: seq<Chunk>) {
    forall i :: 0 <= i < |chunks| ==> chunks[i].id == i
  }

  /**
   * The chunk-building loop of handleUpload (App.tsx:97-114): for each page, for each
   * of its paragraphs, push a chunk with the next id and the page's number.
   */
  method BuildChunks(pages: seq<Page>) returns (chunks: seq<Chunk>)
    ensures chunks == ChunksOf(pages)
  {
    chunks := [];
    ghost var tagged: seq<(string, int)> := [];
    var p := 0;
    while p < |pages|
      invariant 0 <= p <= |pages|
      invariant tagged == Tagged(pages[..p])
      invariant |chunks| == |tagged|
      invariant forall i :: 0 <= i < |chunks| ==> chunks[i] == Chunk(i, tagged[i].0, tagged[i].1)
    {
      var paras := Paragraphs(pages[p].text);
      var pushed := PushParagraphs(chunks, paras, pages[p].page);
      BuildStep(pages, p, chunks, tagged, pushed);
      chunks, tagged := pushed, Tagged(pages[..p + 1]);
      p := p + 1;
    }
    assert pages[..|pages|] == pages;
  }

  /** The inner loop of the chunk builder: one chunk per paragraph, numbered on from `chunks`. */
  method PushParagraphs(chunks: seq<Chunk>, paras: seq<string>, page: int) returns (out: seq<Chunk>)
    ensures |out| == |chunks| + |paras|
    ensures out[..|chunks|] == chunks
    ensures forall k :: 0 <= k < |paras| ==> out[|chunks| + k] == Chunk(|chunks| + k, paras[k], page)
  {
    out := chunks;
    var currentId := |chunks|;
    var j := 0;
    while j < |paras|
      invariant 0 <= j <= |paras|
      invariant currentId == |out| == |chunks| + j
      invariant out[..|chunks|] == chunks
      invariant forall k :: 0 <= k < j ==> out[|chunks| + k] == Chunk(|chunks| + k, paras[k], page)
    {
      out := out + [Chunk(currentId, paras[j], page)];
      currentId := currentId + 1;
      j := j + 1;
    }
  }

  /** One page of the chunk builder: its paragraphs, numbered on, extend the chunks of the pages before it. */
  lemma BuildStep(pages: seq<Page>, p: nat, chunks: seq<Chunk>, tagged: seq<(string, int)>, pushed: seq<Chunk>)
    requires p < |pages| && tagged == Tagged(pages[..p])
    requires |chunks| == |tagged|
    requires forall i :: 0 <= i < |chunks| ==> chunks[i] == Chunk(i, tagged[i].0, tagged[i].1)
    requires |pushed| == |chunks| + |Paragraphs(pages[p].text)| && pushed[..|chunks|] == chunks
    requires forall k :: 0 <= k < |Paragraphs(pages[p].text)| ==>
      pushed[|chunks| + k] == Chunk(|chunks| + k, Paragraphs(pages[p].text)[k], pages[p].page)
    ensures var next := Tagged(pages[..p + 1]);
      |pushed| == |next| && forall i :: 0 <= i < |pushed| ==> pushed[i] == Chunk(i, next[i].0, next[i].1)
  {
    var added := TagWith(Paragraphs(pages[p].text), pages[p].page);
    NumberedStep(chunks, tagged, pushed, added);
    TaggedStep(pages, p);
  }

  /** Chunks numbered after `tagged`, extended by the numbered chunks of `added`, are numbered after the concatenation. */
  lemma NumberedStep(chunks: seq<Chunk>, tagged: seq<(string, int)>, pushed: seq<Chunk>, added: seq<(string, int)>)
    requires |chunks| == |tagged|
    requires forall i :: 0 <= i < |chunks| ==> chunks[i] == Chunk(i, tagged[i].0, tagged[i].1)
    requires |pushed| == |chunks| + |added| && pushed[..|chunks|] == chunks
    requires forall k :: 0 <= k < |added| ==> pushed[|chunks| + k] == Chunk(|chunks| + k, added[k].0, added[k].1)
    ensures forall i :: 0 <= i < |pushed| ==> pushed[i] == Chunk(i, (tagged + added)[i].0, (tagged + added)[i].1)
  {
    forall i | 0 <= i < |pushed|
      ensures pushed[i] == Chunk(i, (tagged + added)[i].0, (tagged + added)[i].1)
    {
      if i < |chunks| {
        assert pushed[i] == pushed[..|chunks|][i];
      } else {
        assert pushed[|chunks| + (i - |chunks|)] == pushed[i];
      }
    }
  }

  lemma TaggedStep(pages: seq<Page>, p: nat)
    requires p < |pages|
    ensures Tagged(pages[..p + 1]) == Tagged(pages[..p]) + TagWith(Paragraphs(pages[p].text), pages[p].page)
  {
    assert pages[..p + 1][..p] == pages[..p];
  }

  // ------------------------------------------------------------ the upload guards

  /** `pages.map(p => p.text).join("")`. */
  function JoinTexts(pages: seq<Page>): string {
    if pages == [] then "" else JoinTexts(pages[..|pages| - 1]) + pages[|pages| - 1].text
  }

  /** The scanned-document test (App.tsx:84): the cleaned local text is shorter than 100 code units. */
  predicate NeedsOcr(localPages: seq<Page>)
    ensures NeedsOcr(localPages) ==> |CleanPdfText(JoinTexts(localPages))| < 100
    ensures |CleanPdfText(JoinTexts(localPages))| < 50 ==> NeedsOcr(localPages)
  {
    CodeUnits(CleanPdfText(JoinTexts(localPages))) < 100
  }

  /** App.tsx:92: no page, or every page shorter than 10 code units. */
  predicate Unreadable(pages: seq<Page>)
    ensures Unreadable(pages) ==> forall p :: p in pages ==> |p.text| < 10
    ensures (forall p :: p in pages ==> |p.text| < 5) ==> Unreadable(pages)
  {
    |pages| == 0 || forall p :: p in pages ==> CodeUnits(p.text) < 10
  }

  /** `pages[pages.length - 1]?.page || 1`. */
  function TotalPages(pages: seq<Page>): (n: int)
    ensures n != 0
    ensures |pages| > 0 && pages[|pages| - 1].page != 0 ==> n == pages[|pages| - 1].page
    ensures |pages| == 0 || pages[|pages| - 1].page == 0 ==> n == 1
  {
    if |pages| == 0 || pages[|pages| - 1].page == 0 then 1 else pages[|pages| - 1].page
  }

  /** ".pdf" occurs in `name` at position `k`. */
  predicate PdfAt(name: string, k: int) {
    0 <= k && k + 4 <= |name| && name[k..k + 4] == ".pdf"
  }

  /** Past the first character, the occurrences of ".pdf" move one place to the left. */
  lemma PdfAtShift(name: string)
    requires |name| >= 1
    ensures forall k :: 1 <= k ==> (PdfAt(name, k) <==> PdfAt(name[1..], k - 1))
  {
    forall k | 1 <= k ensures PdfAt(name, k) <==> PdfAt(name[1..], k - 1) {
      if k + 4 <= |name| { assert name[k..k + 4] == name[1..][k - 1..k + 3]; }
    }
  }

  /** The position of the leftmost ".pdf" in `name`, -1 where there is none. */
  function FirstPdf(name: string): (k: int)
    ensures k == -1 || PdfAt(name, k)
    ensures forall j :: 0 <= j && (k == -1 || j < k) ==> !PdfAt(name, j)
    decreases |name|
  {
    if |name| < 4 then -1
    else if name[..4] == ".pdf" then 0
    else
      var k := FirstPdf(name[1..]);
      PdfAtShift(name);
      if k == -1 then -1 else k + 1
  }

  /**
   * `file.name.replace('.pdf', '')`: a string pattern replaces its first occurrence only,
   * so the name is cut around the leftmost ".pdf", and kept whole when there is none.
   */
  function TitleOf(name: string): (title: string)
    ensures FirstPdf(name) == -1 ==> title == name
    ensures FirstPdf(name) >= 0 ==> title == name[..FirstPdf(name)] + name[FirstPdf(name) + 4..]
    decreases |name|
  {
    if |name| < 4 then name
    else if name[..4] == ".pdf" then name[4..]
    else
      var rest := TitleOf(name[1..]);
      var k := FirstPdf(name[1..]);
      assert FirstPdf(name) == if k == -1 then -1 else k + 1;
      TitleStep(name, k);
      [name[0]] + rest
  }

  /** Putting the first character back in front of the cut tail gives the cut name. */
  lemma TitleStep(name: string, k: int)
    requires |name| >= 1 && (k == -1 || (0 <= k && k + 5 <= |name|))
    ensures k == -1 ==> [name[0]] + name[1..] == name
    ensures k >= 0 ==> [name[0]] + (name[1..][..k] + name[1..][k + 4..]) == name[..k + 1] + name[k + 5..]
  {
    if k >= 0 {
      assert [name[0]] + name[1..][..k] == name[..k + 1];
      assert name[1..][k + 4..] == name[k + 5..];
    }
  }

  /** A window that starts inside the stem and reaches into ".pdf" holds its '.' where ".pdf" has 'p', 'd' or 'f'. */
  lemma NoPdfAcrossDot(stem: string, j: int)
    requires 0 <= j < |stem| < j + 4
    ensures !PdfAt(stem + ".pdf", j)
  {
    var name := stem + ".pdf";
    assert name[|stem|] == '.';
    if j + 4 <= |name| {
      assert name[j..j + 4][|stem| - j] == '.';
    }
  }

  /** The title of "<stem>.pdf", where the stem holds no ".pdf" of its own, is the stem. */
  lemma TitleStripsExtension(stem: string)
    requires forall k :: !PdfAt(stem, k)
    ensures TitleOf(stem + ".pdf") == stem
  {
    var name := stem + ".pdf";
    var n := |stem|;
    assert PdfAt(name, n) by { assert name[n..n + 4] == ".pdf"; }
    forall j | 0 <= j < n ensures !PdfAt(name, j) {
      if j + 4 <= n {
        assert name[j..j + 4] == stem[j..j + 4];
        assert !PdfAt(stem, j);
      } else {
        NoPdfAcrossDot(stem, j);
      }
    }
    var k := FirstPdf(name);
    assert k == n;
    assert name[..n] == stem && name[n + 4..] == [];
  }
}
