/**
 * The index arithmetic of the reader's navigation handlers: the seek clamp of
 * handleSeek and the page lookup of handleGoToPage. Both produce the index that
 * is then handed to playChunk.
 */
module Navigation {
  import opened Wrappers
  import opened Types
  import opened Upload

  function Min(a: int, b: int): int { if a <= b then a else b }
  function Max(a: int, b: int): int { if a >= b then a else b }

  /**
   * handleSeek: `Math.floor(percentage / 100 * n)` clamped to `[0, n - 1]`.
   * With no chunk the clamp yields 0, which playChunk then ignores.
   */
  function SeekIndex(percentage: real, n: nat): (i: int)
    ensures n > 0 ==> 0 <= i < n
    ensures n == 0 ==> i == 0
    ensures 0.0 <= percentage < 100.0 ==> i == ((percentage / 100.0) * (n as real)).Floor
    ensures n > 0 && percentage >= 100.0 ==> i == n - 1
    ensures percentage <= 0.0 ==> i == 0
  {
    var x := (percentage / 100.0) * (n as real);
    ScaledPosition(percentage, n);
    Max(0, Min(n - 1, x.Floor))
  }

  /** Where `percentage / 100 * n` lies relative to 0 and n. */
  lemma ScaledPosition(percentage: real, n: nat)
    ensures 0.0 <= percentage < 100.0 ==>
      0.0 <= (percentage / 100.0) * (n as real) && (n > 0 ==> (percentage / 100.0) * (n as real) < n as real)
    ensures percentage >= 100.0 ==> (percentage / 100.0) * (n as real) >= n as real
    ensures percentage <= 0.0 ==> (percentage / 100.0) * (n as real) <= 0.0
  {
    var f := percentage / 100.0;
    if 0.0 <= percentage < 100.0 {
      ScaleBelow(f, n as real);
    }
    if percentage >= 100.0 {
      ScaleAbove(f, n as real);
    }
    if percentage <= 0.0 {
      ScaleNonPositive(f, n as real);
    }
  }

  lemma ScaleBelow(f: real, n: real)
    requires 0.0 <= f < 1.0 && n >= 0.0
    ensures 0.0 <= f * n <= n
    ensures n > 0.0 ==> f * n < n
  {
  }

  lemma ScaleAbove(f: real, n: real)
    requires f >= 1.0 && n >= 0.0
    ensures f * n >= n
  {
  }

  lemma ScaleNonPositive(f: real, n: real)
    requires f <= 0.0 && n >= 0.0
    ensures f * n <= 0.0
  {
  }

  /** A further right click on the progress bar never seeks to an earlier chunk. */
  lemma SeekMonotone(p: real, q: real, n: nat)
    requires p <= q
    ensures SeekIndex(p, n) <= SeekIndex(q, n)
  {
    var x := (p / 100.0) * (n as real);
    var y := (q / 100.0) * (n as real);
    assert x <= y by { ScaleMonotone(p / 100.0, q / 100.0, n as real); }
    assert x.Floor <= y.Floor by { FloorMonotone(x, y); }
  }

  lemma ScaleMonotone(a: real, b: real, n: real)
    requires a <= b && n >= 0.0
    ensures a * n <= b * n
  {
    assert b * n - a * n == (b - a) * n;
  }

  lemma FloorMonotone(x: real, y: real)
    requires x <= y
    ensures x.Floor <= y.Floor
  {
    assert x.Floor as real <= x;
    assert y < y.Floor as real + 1.0;
  }

  /** Halfway through a ten-chunk book is chunk 5. */
  lemma SeekHalfway()
    ensures SeekIndex(50.0, 10) == 5
  {
    assert (50.0 / 100.0) * (10 as real) == 5.0;
  }

  /** `chunks.find(c => c.page >= page)`: the position of the first chunk on or after `page`. */
  function FirstAtOrAfter(chunks: seq<Chunk>, page: int): (r: Option<nat>)
    ensures r.Some? ==> r.value < |chunks| && chunks[r.value].page >= page
    ensures r.Some? ==> forall j :: 0 <= j < r.value ==> chunks[j].page < page
    ensures r.None? <==> forall j :: 0 <= j < |chunks| ==> chunks[j].page < page
  {
    if chunks == [] then None
    else if chunks[0].page >= page then Some(0)
    else match FirstAtOrAfter(chunks[1..], page) {
      case None => None
      case Some(k) => Some(k + 1)
    }
  }

  /**
   * handleGoToPage: the id of the first chunk on or after `page`, otherwise the
   * last position of the chunk list.
   */
  function GoToPageTarget(chunks: seq<Chunk>, page: int): int {
    match FirstAtOrAfter(chunks, page) {
      case Some(k) => chunks[k].id
      case None => |chunks| - 1
    }
  }
  /**
   * The target is the id of the first chunk on or after the page, as `find` returns it,
   * or the last position when every chunk lies before the page.
   */
  lemma GoToPageTargetFinds(chunks: seq<Chunk>, page: int, k: int)
    requires 0 <= k < |chunks| && chunks[k].page >= page
    requires forall j :: 0 <= j < k ==> chunks[j].page < page
    ensures GoToPageTarget(chunks, page) == chunks[k].id
  {
  }

  /** With every chunk before the page, the target is the last position. */
  lemma GoToPagePastEnd(chunks: seq<Chunk>, page: int)
    requires forall j :: 0 <= j < |chunks| ==> chunks[j].page < page
    ensures GoToPageTarget(chunks, page) == |chunks| - 1
  {
  }


  /**
   * On a numbered chunk list the target of handleGoToPage is a valid index: the first
   * chunk on or after `page`, or the last chunk when every chunk lies before `page`.
   */
  lemma GoToPageInRange(chunks: seq<Chunk>, page: int)
    requires Numbered(chunks) && |chunks| > 0
    ensures 0 <= GoToPageTarget(chunks, page) < |chunks|
    ensures chunks[GoToPageTarget(chunks, page)].page >= page
      || forall j :: 0 <= j < |chunks| ==> chunks[j].page < page
    ensures GoToPageTarget(chunks, page) == |chunks| - 1
      || forall j :: 0 <= j < GoToPageTarget(chunks, page) ==> chunks[j].page < page
  {
  }

  /** The chunks of an uploaded book are numbered, so handleGoToPage on them stays in range. */
  lemma GoToPageOnUploadedBook(pages: seq<Page>, page: int)
    requires |ChunksOf(pages)| > 0
    ensures 0 <= GoToPageTarget(ChunksOf(pages), page) < |ChunksOf(pages)|
  {
    ChunksOfWellFormed(pages);
    GoToPageInRange(ChunksOf(pages), page);
  }

  /** Pages [1, 1, 2, 2, 3, 4]: going to page 3 lands on chunk 4. */
  lemma GoToPageExample(chunks: seq<Chunk>)
    requires chunks == [Chunk(0, "aaaaaa", 1), Chunk(1, "bbbbbb", 1), Chunk(2, "cccccc", 2),
                        Chunk(3, "dddddd", 2), Chunk(4, "eeeeee", 3), Chunk(5, "ffffff", 4)]
    ensures GoToPageTarget(chunks, 3) == 4
  {
    assert FirstAtOrAfter(chunks[4..], 3) == Some(0);
    assert chunks[3..][1..] == chunks[4..];
    assert FirstAtOrAfter(chunks[3..], 3) == Some(1);
    assert chunks[2..][1..] == chunks[3..];
    assert FirstAtOrAfter(chunks[2..], 3) == Some(2);
    assert chunks[1..][1..] == chunks[2..];
    assert FirstAtOrAfter(chunks[1..], 3) == Some(3);
  }
}
