/**
 * The reader application: the library screen, the upload flow and, at its centre,
 * the playback sequencer. A request counter tags every playback request; each
 * request runs as a chain of continuations that resume when the audio context is
 * unlocked, when the speech service answers and when the audio is decoded, and the
 * chain re-checks its tag after the last two. When its audio ends, the source's
 * `ended` handler asks for the next chunk if its tag is still current.
 *
 * Each asynchronous step is an event method of App naming the request it resumes.
 * A continuation keeps the book chunks and the voice of the playChunk closure that
 * started it, because that is what the closure reads after each await.
 */
module ReaderApp {
  import opened Wrappers
  import opened Types
  import opened TextCleaner
  import opened Upload
  import opened Navigation
  import opened Audio
  import opened Storage

  /** The `onended` handler playChunk hands to playBuffer: its request, chunk index, and closure's chunks and voice. */
  datatype Ended = Ended(requestId: nat, index: int, chunks: seq<Chunk>, voice: Voice)

  /** Where a suspended playChunk call waits: on unlock, on the speech service, or on the decoder's result. */
  datatype Stage = AwaitUnlock | AwaitSynthesis | AwaitDecode(decoded: Option<AudioBuffer>)

  /** A suspended playChunk call: the chunk index, the closure's chunks and voice, and where it waits. */
  datatype Continuation = Continuation(index: int, chunks: seq<Chunk>, voice: Voice, stage: Stage)

  /** A call of the speech service: the text it is asked to speak and the voice. */
  datatype SpeechRequest = SpeechRequest(text: string, voice: Voice)

  /** The chunk list playChunk looks into, or None when no book is open. */
  function ChunksOfBook(book: Option<Book>): Option<seq<Chunk>> {
    if book.Some? then Some(book.value.chunks) else None
  }

  /** `currentBook?.id`. */
  function BookId(book: Option<Book>): Option<string> {
    if book.Some? then Some(book.value.id) else None
  }

  /** The guard of playChunk: a book is open and it has a chunk at `index`. */
  predicate Accepts(chunks: Option<seq<Chunk>>, index: int) {
    chunks.Some? && 0 <= index < |chunks.value|
  }

  /** An `ended` handler points at a chunk of its own list. */
  predicate InRange(e: Ended) {
    0 <= e.index < |e.chunks|
  }

  /** Every request id that is still live (waiting, playing or with an undelivered `ended`) is at most `n`. */
  predicate IdsAtMost(pending: map<nat, Continuation>, src: Option<Source<Ended>>, queue: seq<Ended>, n: nat) {
    (forall id :: id in pending ==> id <= n)
    && (src.Some? ==> src.value.onEnded.requestId <= n)
    && (forall i :: 0 <= i < |queue| ==> queue[i].requestId <= n)
  }

  /** Every live request id is below `n`: none of them is the current request. */
  predicate IdsBelow(pending: map<nat, Continuation>, src: Option<Source<Ended>>, queue: seq<Ended>, n: nat) {
    (forall id :: id in pending ==> id < n)
    && (src.Some? ==> src.value.onEnded.requestId < n)
    && (forall i :: 0 <= i < |queue| ==> queue[i].requestId < n)
  }

  /** `prev.map(b => b.id === id ? { ...b, lastReadChunkIndex: k } : b)`. */
  function MarkRead(books: seq<Book>, id: string, k: int): (r: seq<Book>)
    ensures |r| == |books|
    ensures forall i :: 0 <= i < |books| && books[i].id == id ==> r[i] == books[i].(lastReadChunkIndex := k)
    ensures forall i :: 0 <= i < |books| && books[i].id != id ==> r[i] == books[i]
  {
    seq(|books|, i requires 0 <= i < |books| =>
      if books[i].id == id then books[i].(lastReadChunkIndex := k) else books[i])
  }

  /**
   * The pages handleUpload goes on with: the local extractor's pages, unless their cleaned
   * text is shorter than 100 characters (or the extractor failed), in which case the OCR
   * text becomes page 1. None when the OCR call fails.
   */
  function ExtractedPages(local: Option<seq<Page>>, ocr: Option<string>): (r: Option<seq<Page>>)
    ensures r.Some? ==> |r.value| >= 1
    ensures r.Some? && r != local ==> ocr.Some? && r.value == [Page(1, ocr.value)]
  {
    var raw := if local.Some? then JoinTexts(local.value) else "";
    if CodeUnits(CleanPdfText(raw)) < 100 then
      (if ocr.Some? then Some([Page(1, ocr.value)]) else None)
    else Some(local.value)
  }

  /**
   * The fallback decision: the local pages are kept exactly when the extractor succeeded
   * and its text does not need OCR; a failed local extraction always goes to OCR.
   */
  lemma ExtractedPagesFallback(local: Option<seq<Page>>, ocr: Option<string>)
    ensures local.Some? && !NeedsOcr(local.value) ==> ExtractedPages(local, ocr) == local
    ensures local.None? || NeedsOcr(local.value) ==>
      ExtractedPages(local, ocr) == if ocr.Some? then Some([Page(1, ocr.value)]) else None
  {
    if local.None? {
      assert CleanPdfText("") == "";
    }
  }

  /** The book handleUpload creates from its pages. */
  function NewBook(id: string, fileName: string, pages: seq<Page>, now: int): (b: Book)
    ensures b.totalChunks == |b.chunks| && Numbered(b.chunks) && b.lastReadChunkIndex == 0
    ensures b.dateAdded == b.lastReadDate == now && b.title == TitleOf(fileName)
  {
    var chunks := ChunksOf(pages);
    Book(id, TitleOf(fileName), chunks, |chunks|, 0, now, now, TotalPages(pages))
  }

  class App {
    var appState: AppState
    var books: seq<Book>
    var currentBook: Option<Book>
    var isPlaying: bool
    var voice: Voice
    var activeChunkIndex: int
    /** playbackRequestRef: the id of the current request. */
    var playbackRequest: nat
    /** The suspended playChunk calls, by request id. */
    var pending: map<nat, Continuation>
    /** Every call made to the speech service, in order. */
    var speechRequests: seq<SpeechRequest>
    /** The value Date.now() returns; the environment moves it. */
    var clock: int
    /** The dependencies `[activeChunkIndex, currentBook?.id]` the progress effect last ran with. */
    var effectIndex: int
    var effectBookId: Option<string>
    const audio: AudioController<Ended>
    const store: BookStore

    /**
     * No live request is newer than the counter, and every waiting call and every
     * `ended` handler points at a chunk of its own list.
     */
    predicate Valid()
      reads this, audio
    {
      audio.Valid()
      && IdsAtMost(pending, audio.currentSource, audio.endedQueue, playbackRequest)
      && (forall id :: id in pending ==> 0 <= pending[id].index < |pending[id].chunks|)
      && (audio.currentSource.Some? ==> InRange(audio.currentSource.value.onEnded))
      && (forall i :: 0 <= i < |audio.endedQueue| ==> InRange(audio.endedQueue[i]))
    }

    /** Nothing live belongs to the current request, so no pending step can play or advance. */
    predicate Quiet()
      reads this, audio
    {
      IdsBelow(pending, audio.currentSource, audio.endedQueue, playbackRequest)
    }

    /** The state outside playback is the same in both states. */
    twostate predicate SessionUnchanged()
      reads this
    {
      appState == old(appState) && books == old(books) && currentBook == old(currentBook)
      && speechRequests == old(speechRequests) && clock == old(clock)
      && effectIndex == old(effectIndex) && effectBookId == old(effectBookId)
    }

    /** The controller's lock state is the same in both states. */
    twostate predicate LockUnchanged()
      reads audio
    {
      audio.isUnlocked == old(audio.isUnlocked) && audio.suspended == old(audio.suspended)
    }

    /** The playback state is the same in both states. */
    twostate predicate PlaybackUnchanged()
      reads this, audio
    {
      playbackRequest == old(playbackRequest) && isPlaying == old(isPlaying)
      && activeChunkIndex == old(activeChunkIndex) && pending == old(pending)
      && audio.currentSource == old(audio.currentSource) && audio.endedQueue == old(audio.endedQueue)
      && LockUnchanged()
    }

    /**
     * An accepted playChunk(index): the counter moves on by one and names the new request,
     * playback is on at `index`, the old source is stopped (its `ended` event is scheduled
     * if it had not finished), and the new request waits for the unlock.
     */
    twostate predicate Issued(chunks: seq<Chunk>, v: Voice, index: int)
      reads this, audio
    {
      playbackRequest == old(playbackRequest) + 1
      && isPlaying && activeChunkIndex == index
      && audio.currentSource == None
      && audio.endedQueue == old(audio.endedQueue) + EndedOnStop(old(audio.currentSource))
      && LockUnchanged()
      && pending == old(pending)[playbackRequest := Continuation(index, chunks, v, AwaitUnlock)]
    }

    /**
     * The call of request `id` is over and nothing else moved, except that the flag is
     * cleared when `stopsPlaying` (a failure of the current request).
     */
    twostate predicate Retired(id: nat, stopsPlaying: bool)
      reads this, audio
    {
      pending == old(pending) - {id}
      && playbackRequest == old(playbackRequest)
      && isPlaying == (old(isPlaying) && !stopsPlaying)
      && activeChunkIndex == old(activeChunkIndex)
      && audio.currentSource == old(audio.currentSource) && audio.endedQueue == old(audio.endedQueue)
    }

    /** Mount: the library is loaded and the audio controller created. */
    constructor (store: BookStore, startsSuspended: bool)
      ensures Valid() && Quiet()
      ensures this.store == store && fresh(audio)
      ensures appState == Idle && books == store.GetBooks() && currentBook == None
      ensures !isPlaying && voice == AvailableVoices[0] && activeChunkIndex == 0 && playbackRequest == 0
      ensures pending == map[] && speechRequests == [] && effectIndex == 0 && effectBookId == None
      ensures audio.currentSource == None && audio.endedQueue == []
      ensures !audio.isUnlocked && audio.suspended == startsSuspended
    {
      appState := Idle;
      books := store.GetBooks();
      currentBook := None;
      isPlaying := false;
      voice := AvailableVoices[0];
      activeChunkIndex := 0;
      playbackRequest := 0;
      pending := map[];
      speechRequests := [];
      clock := 0;
      effectIndex := 0;
      effectBookId := None;
      audio := new AudioController(startsSuspended);
      this.store := store;
    }

    /** The environment's clock moves to `now`. */
    method SetClock(now: int)
      requires Valid()
      modifies this
      ensures Valid()
      ensures clock == now
      ensures appState == old(appState) && books == old(books) && currentBook == old(currentBook)
      ensures speechRequests == old(speechRequests) && voice == old(voice)
      ensures effectIndex == old(effectIndex) && effectBookId == old(effectBookId)
      ensures PlaybackUnchanged()
    {
      clock := now;
    }

    /**
     * playChunk(index) of the closure whose book chunks are `chunks` and whose voice is `v`:
     * without a book or without a chunk at `index` nothing happens; otherwise the request
     * is issued up to its first await.
     */
    method PlayChunk(chunks: Option<seq<Chunk>>, v: Voice, index: int)
      requires Valid()
      modifies this, audio
      ensures Valid()
      ensures Accepts(chunks, index) ==> Issued(chunks.value, v, index)
      ensures !Accepts(chunks, index) ==> PlaybackUnchanged()
      ensures SessionUnchanged() && voice == old(voice)
    {
      if !Accepts(chunks, index) {
        return;
      }
      var requestId := playbackRequest + 1;
      playbackRequest := requestId;
      isPlaying := true;
      activeChunkIndex := index;
      audio.Stop();
      pending := pending[requestId := Continuation(index, chunks.value, v, AwaitUnlock)];
    }

    /** handleBookSelect(): opens the book at its last read position. Playback is not touched. */
    method HandleBookSelect(book: Book)
      requires Valid()
      modifies this
      ensures Valid()
      ensures currentBook == Some(book) && activeChunkIndex == book.lastReadChunkIndex && appState == Reader
      ensures books == old(books) && voice == old(voice) && speechRequests == old(speechRequests) && clock == old(clock)
      ensures effectIndex == old(effectIndex) && effectBookId == old(effectBookId)
      ensures playbackRequest == old(playbackRequest) && isPlaying == old(isPlaying) && pending == old(pending)
    {
      currentBook := Some(book);
      activeChunkIndex := book.lastReadChunkIndex;
      appState := Reader;
    }

    /**
     * handleDeleteBook(): after confirmation, deletes the book from the store and shows the
     * remaining list; the open book is closed if it was the one deleted. A failed write
     * throws out of the handler before any state is set.
     */
    method HandleDeleteBook(id: string, confirmed: bool)
      requires Valid()
      modifies this, store
      ensures Valid()
      ensures !confirmed || old(store.full) ==> books == old(books) && store.slot == old(store.slot)
      ensures confirmed && !old(store.full) ==>
        books == WithoutId(old(store.GetBooks()), id) && store.slot == Stored(books)
      ensures confirmed && !old(store.full) && BookId(old(currentBook)) == Some(id) ==>
        appState == Idle && currentBook == None
      ensures !(confirmed && !old(store.full) && BookId(old(currentBook)) == Some(id)) ==>
        appState == old(appState) && currentBook == old(currentBook)
      ensures store.full == old(store.full)
      ensures voice == old(voice) && speechRequests == old(speechRequests) && clock == old(clock)
      ensures effectIndex == old(effectIndex) && effectBookId == old(effectBookId)
      ensures playbackRequest == old(playbackRequest) && isPlaying == old(isPlaying)
      ensures activeChunkIndex == old(activeChunkIndex) && pending == old(pending)
    {
      if !confirmed {
        return;
      }
      var updated := store.DeleteBook(id);
      if updated.None? {
        return;
      }
      books := updated.value;
      if currentBook.Some? && currentBook.value.id == id {
        appState := Idle;
        currentBook := None;
      }
    }

    /** What an upload leaves alone: the playback, the voice, the clock and the store's quota. */
    twostate predicate UploadFrame()
      reads this, store
    {
      store.full == old(store.full)
      && voice == old(voice) && speechRequests == old(speechRequests) && clock == old(clock)
      && effectIndex == old(effectIndex) && effectBookId == old(effectBookId)
      && playbackRequest == old(playbackRequest) && isPlaying == old(isPlaying) && pending == old(pending)
    }

    /**
     * handleUpload(), with the extractors' outcomes as inputs: `local` is the local
     * extractor's pages (None when it throws), `ocr` the OCR text (None when that call
     * throws) and `bookId` the id made from the clock. It fails with the error screen when
     * no pages come back, every page is too short, or no paragraph survives; otherwise it
     * saves the new book, reloads the library and opens the book at chunk 0.
     */
    method HandleUpload(local: Option<seq<Page>>, ocr: Option<string>, fileName: string, bookId: string)
      requires Valid()
      modifies this, store
      ensures Valid()
      ensures var pages := ExtractedPages(local, ocr);
        pages.None? || Unreadable(pages.value) || |ChunksOf(pages.value)| == 0 ==>
          appState == Error && currentBook == old(currentBook) && books == old(books)
          && activeChunkIndex == old(activeChunkIndex) && store.slot == old(store.slot)
      ensures var pages := ExtractedPages(local, ocr);
        pages.Some? && !Unreadable(pages.value) && |ChunksOf(pages.value)| > 0 ==>
          var book := NewBook(bookId, fileName, pages.value, old(clock));
          appState == Reader && currentBook == Some(book) && activeChunkIndex == 0
          && (old(store.full) ==> store.slot == old(store.slot))
          && (!old(store.full) ==> store.slot == Stored(Saved(old(store.GetBooks()), book)))
          && books == store.GetBooks()
      ensures UploadFrame()
    {
      appState := Extracting;
      var extracted := ExtractedPages(local, ocr);
      if extracted.None? || Unreadable(extracted.value) {
        appState := Error;
      } else {
        CreateBook(extracted.value, fileName, bookId);
      }
    }

    /**
     * The second half of handleUpload(): the pages are cut into numbered chunks; with no
     * chunk the error screen is shown, otherwise the book is saved and opened.
     */
    method CreateBook(pages: seq<Page>, fileName: string, bookId: string)
      requires Valid()
      modifies this, store
      ensures Valid()
      ensures |ChunksOf(pages)| == 0 ==>
        appState == Error && currentBook == old(currentBook) && books == old(books)
        && activeChunkIndex == old(activeChunkIndex) && store.slot == old(store.slot)
      ensures |ChunksOf(pages)| > 0 ==>
        var book := NewBook(bookId, fileName, pages, old(clock));
        appState == Reader && currentBook == Some(book) && activeChunkIndex == 0
        && (old(store.full) ==> store.slot == old(store.slot))
        && (!old(store.full) ==> store.slot == Stored(Saved(old(store.GetBooks()), book)))
        && books == store.GetBooks()
      ensures UploadFrame()
    {
      var allChunks := BuildChunks(pages);
      if |allChunks| == 0 {
        appState := Error;
        return;
      }
      var newBook := Book(bookId, TitleOf(fileName), allChunks, |allChunks|, 0, clock, clock, TotalPages(pages));
      store.SaveBook(newBook);
      books := store.GetBooks();
      HandleBookSelect(newBook);
    }

    /**
     * The progress effect: when the chunk index or the open book's id differs from the
     * values it last ran with, the position is written to the store and copied into the
     * open book and the library list. A failed write throws out of the effect before the
     * local copies are made.
     */
    method RunProgressEffect()
      requires Valid()
      modifies this, store
      ensures Valid()
      ensures effectIndex == activeChunkIndex && effectBookId == BookId(old(currentBook))
      ensures var changed := (old(activeChunkIndex), BookId(old(currentBook))) != (old(effectIndex), old(effectBookId));
        !changed || old(currentBook).None? ==>
          currentBook == old(currentBook) && books == old(books) && store.slot == old(store.slot)
      ensures var changed := (old(activeChunkIndex), BookId(old(currentBook))) != (old(effectIndex), old(effectBookId));
        changed && old(currentBook).Some? ==>
          var id := old(currentBook).value.id;
          var found := FindIndex(old(store.GetBooks()), id);
          (found.Some? && !old(store.full) ==>
             store.slot == Stored(SetProgress(old(store.GetBooks()), found.value, activeChunkIndex, clock)))
          && (found.None? || old(store.full) ==> store.slot == old(store.slot))
          && (found.Some? && old(store.full) ==> currentBook == old(currentBook) && books == old(books))
          && (!(found.Some? && old(store.full)) ==>
                currentBook == Some(old(currentBook).value.(lastReadChunkIndex := activeChunkIndex))
                && books == MarkRead(old(books), id, activeChunkIndex))
      ensures store.full == old(store.full)
      ensures appState == old(appState) && voice == old(voice) && speechRequests == old(speechRequests) && clock == old(clock)
      ensures PlaybackUnchanged()
    {
      var bookId := BookId(currentBook);
      if activeChunkIndex == effectIndex && bookId == effectBookId {
        return;
      }
      effectIndex, effectBookId := activeChunkIndex, bookId;
      if currentBook.None? {
        return;
      }
      var threw := store.UpdateBookProgress(currentBook.value.id, activeChunkIndex, clock);
      if threw {
        return;
      }
      books := MarkRead(books, currentBook.value.id, activeChunkIndex);
      currentBook := Some(currentBook.value.(lastReadChunkIndex := activeChunkIndex));
    }

    /**
     * togglePlayPause(): only in the reader. While playing it stops the audio, clears the
     * flag and bumps the counter, which retires every live request; while paused it asks
     * for the active chunk again.
     */
    method TogglePlayPause()
      requires Valid()
      modifies this, audio
      ensures Valid()
      ensures old(appState) != Reader ==> PlaybackUnchanged()
      ensures old(appState) == Reader && old(isPlaying) ==>
        !isPlaying && playbackRequest == old(playbackRequest) + 1 && Quiet()
        && activeChunkIndex == old(activeChunkIndex) && pending == old(pending)
        && audio.currentSource == None
        && audio.endedQueue == old(audio.endedQueue) + EndedOnStop(old(audio.currentSource))
        && LockUnchanged()
      ensures old(appState) == Reader && !old(isPlaying) && Accepts(ChunksOfBook(old(currentBook)), old(activeChunkIndex)) ==>
        Issued(old(currentBook).value.chunks, old(voice), old(activeChunkIndex))
      ensures old(appState) == Reader && !old(isPlaying) && !Accepts(ChunksOfBook(old(currentBook)), old(activeChunkIndex)) ==>
        PlaybackUnchanged()
      ensures SessionUnchanged() && voice == old(voice)
    {
      if appState != Reader {
        return;
      }
      if isPlaying {
        audio.Stop();
        isPlaying := false;
        playbackRequest := playbackRequest + 1;
      } else {
        PlayChunk(ChunksOfBook(currentBook), voice, activeChunkIndex);
      }
    }

    /** handleNext(): the next chunk, unless the active one is the last. */
    method HandleNext()
      requires Valid()
      modifies this, audio
      ensures Valid()
      ensures var chunks := ChunksOfBook(old(currentBook));
        chunks.Some? && old(activeChunkIndex) < |chunks.value| - 1 && Accepts(chunks, old(activeChunkIndex) + 1) ==>
          Issued(chunks.value, old(voice), old(activeChunkIndex) + 1)
      ensures var chunks := ChunksOfBook(old(currentBook));
        !(chunks.Some? && old(activeChunkIndex) < |chunks.value| - 1 && Accepts(chunks, old(activeChunkIndex) + 1)) ==>
          PlaybackUnchanged()
      ensures SessionUnchanged() && voice == old(voice)
    {
      if currentBook.Some? && activeChunkIndex < |currentBook.value.chunks| - 1 {
        PlayChunk(ChunksOfBook(currentBook), voice, activeChunkIndex + 1);
      }
    }

    /** handlePrev(): the previous chunk, unless the active one is the first. */
    method HandlePrev()
      requires Valid()
      modifies this, audio
      ensures Valid()
      ensures old(activeChunkIndex) > 0 && Accepts(ChunksOfBook(old(currentBook)), old(activeChunkIndex) - 1) ==>
        Issued(old(currentBook).value.chunks, old(voice), old(activeChunkIndex) - 1)
      ensures !(old(activeChunkIndex) > 0 && Accepts(ChunksOfBook(old(currentBook)), old(activeChunkIndex) - 1)) ==>
        PlaybackUnchanged()
      ensures SessionUnchanged() && voice == old(voice)
    {
      if activeChunkIndex > 0 {
        PlayChunk(ChunksOfBook(currentBook), voice, activeChunkIndex - 1);
      }
    }

    /** handleChunkSelect(): the clicked chunk. */
    method HandleChunkSelect(id: int)
      requires Valid()
      modifies this, audio
      ensures Valid()
      ensures Accepts(ChunksOfBook(old(currentBook)), id) ==> Issued(old(currentBook).value.chunks, old(voice), id)
      ensures !Accepts(ChunksOfBook(old(currentBook)), id) ==> PlaybackUnchanged()
      ensures SessionUnchanged() && voice == old(voice)
    {
      PlayChunk(ChunksOfBook(currentBook), voice, id);
    }

    /** handleSeek(): the chunk at `percentage` of the book, clamped into the chunk list. */
    method HandleSeek(percentage: real)
      requires Valid()
      modifies this, audio
      ensures Valid()
      ensures old(currentBook).Some? && |old(currentBook).value.chunks| > 0 ==>
        Issued(old(currentBook).value.chunks, old(voice), SeekIndex(percentage, |old(currentBook).value.chunks|))
      ensures old(currentBook).None? || |old(currentBook).value.chunks| == 0 ==> PlaybackUnchanged()
      ensures SessionUnchanged() && voice == old(voice)
    {
      if currentBook.None? {
        return;
      }
      var chunks := currentBook.value.chunks;
      var safeIndex := SeekIndex(percentage, |chunks|);
      PlayChunk(Some(chunks), voice, safeIndex);
    }

    /**
     * handleGoToPage(): the id of the first chunk on or after `page`, otherwise the last chunk.
     * On a numbered chunk list (every uploaded book's) the request is always accepted.
     */
    method HandleGoToPage(page: int)
      requires Valid()
      modifies this, audio
      ensures Valid()
      ensures var chunks := ChunksOfBook(old(currentBook));
        chunks.Some? && Accepts(chunks, GoToPageTarget(chunks.value, page)) ==>
          Issued(chunks.value, old(voice), GoToPageTarget(chunks.value, page))
      ensures var chunks := ChunksOfBook(old(currentBook));
        !(chunks.Some? && Accepts(chunks, GoToPageTarget(chunks.value, page))) ==> PlaybackUnchanged()
      ensures var chunks := ChunksOfBook(old(currentBook));
        chunks.Some? && Numbered(chunks.value) && |chunks.value| > 0 ==> isPlaying
      ensures SessionUnchanged() && voice == old(voice)
    {
      if currentBook.None? {
        return;
      }
      var chunks := currentBook.value.chunks;
      var target := FirstAtOrAfter(chunks, page);
      if target.Some? {
        PlayChunk(Some(chunks), voice, chunks[target.value].id);
      } else {
        PlayChunk(Some(chunks), voice, |chunks| - 1);
      }
      if Numbered(chunks) && |chunks| > 0 {
        GoToPageInRange(chunks, page);
      }
    }

    /**
     * handleVoiceChange(), as written: the voice is set, and a playing request is issued
     * again through the closure of the same render, which still holds the old voice.
     */
    method HandleVoiceChange(v: Voice)
      requires Valid()
      modifies this, audio
      ensures Valid()
      ensures voice == v
      ensures old(isPlaying) && Accepts(ChunksOfBook(old(currentBook)), old(activeChunkIndex)) ==>
        Issued(old(currentBook).value.chunks, old(voice), old(activeChunkIndex))
      ensures !(old(isPlaying) && Accepts(ChunksOfBook(old(currentBook)), old(activeChunkIndex))) ==>
        PlaybackUnchanged()
      ensures SessionUnchanged()
    {
      var closureVoice := voice;
      voice := v;
      if isPlaying {
        PlayChunk(ChunksOfBook(currentBook), closureVoice, activeChunkIndex);
      }
    }

    /** handleVoiceChange() as intended: the request issued again uses the new voice. */
    method HandleVoiceChangeCorrected(v: Voice)
      requires Valid()
      modifies this, audio
      ensures Valid()
      ensures voice == v
      ensures old(isPlaying) && Accepts(ChunksOfBook(old(currentBook)), old(activeChunkIndex)) ==>
        Issued(old(currentBook).value.chunks, v, old(activeChunkIndex))
      ensures !(old(isPlaying) && Accepts(ChunksOfBook(old(currentBook)), old(activeChunkIndex))) ==>
        PlaybackUnchanged()
      ensures SessionUnchanged()
    {
      voice := v;
      if isPlaying {
        PlayChunk(ChunksOfBook(currentBook), v, activeChunkIndex);
      }
    }

    /**
     * handleBackToLibrary(), as written: stops the audio, clears the flag and closes the
     * book, but leaves the counter alone, so every live request stays current.
     */
    method HandleBackToLibrary()
      requires Valid()
      modifies this, audio
      ensures Valid()
      ensures appState == Idle && currentBook == None && !isPlaying
      ensures playbackRequest == old(playbackRequest) && pending == old(pending)
      ensures audio.currentSource == None
      ensures audio.endedQueue == old(audio.endedQueue) + EndedOnStop(old(audio.currentSource))
      ensures LockUnchanged()
      ensures activeChunkIndex == old(activeChunkIndex) && books == old(books) && voice == old(voice)
      ensures speechRequests == old(speechRequests) && clock == old(clock)
      ensures effectIndex == old(effectIndex) && effectBookId == old(effectBookId)
    {
      audio.Stop();
      isPlaying := false;
      appState := Idle;
      currentBook := None;
    }

    /** handleBackToLibrary() as intended: the counter is bumped as well, so nothing live stays current. */
    method HandleBackToLibraryCorrected()
      requires Valid()
      modifies this, audio
      ensures Valid() && Quiet()
      ensures appState == Idle && currentBook == None && !isPlaying
      ensures playbackRequest == old(playbackRequest) + 1 && pending == old(pending)
      ensures audio.currentSource == None
      ensures audio.endedQueue == old(audio.endedQueue) + EndedOnStop(old(audio.currentSource))
      ensures LockUnchanged()
      ensures activeChunkIndex == old(activeChunkIndex) && books == old(books) && voice == old(voice)
      ensures speechRequests == old(speechRequests) && clock == old(clock)
      ensures effectIndex == old(effectIndex) && effectBookId == old(effectBookId)
    {
      audio.Stop();
      isPlaying := false;
      playbackRequest := playbackRequest + 1;
      appState := Idle;
      currentBook := None;
    }

    /**
     * `await unlock()` of request `id` settles. There is no check of the counter here: when
     * the unlock succeeds the speech service is called for the closure's chunk and voice
     * even for a request that is no longer current. When it fails, the catch clause clears
     * the flag if the request is current.
     */
    method ResolveUnlock(id: nat, resumeSucceeds: bool)
      requires Valid()
      requires id in pending && pending[id].stage == AwaitUnlock
      modifies this, audio
      ensures Valid()
      ensures var c := old(pending)[id];
        var ok := old(audio.isUnlocked) || !old(audio.suspended) || resumeSucceeds;
        ok ==>
          pending == old(pending)[id := c.(stage := AwaitSynthesis)]
          && speechRequests == old(speechRequests) + [SpeechRequest(c.chunks[c.index].text, c.voice)]
          && audio.isUnlocked && !audio.suspended && isPlaying == old(isPlaying)
      ensures var ok := old(audio.isUnlocked) || !old(audio.suspended) || resumeSucceeds;
        !ok ==> Retired(id, id == old(playbackRequest)) && speechRequests == old(speechRequests) && LockUnchanged()
      ensures playbackRequest == old(playbackRequest) && activeChunkIndex == old(activeChunkIndex)
      ensures audio.currentSource == old(audio.currentSource) && audio.endedQueue == old(audio.endedQueue)
      ensures old(Quiet()) ==> Quiet()
      ensures appState == old(appState) && books == old(books) && currentBook == old(currentBook)
      ensures voice == old(voice) && clock == old(clock)
      ensures effectIndex == old(effectIndex) && effectBookId == old(effectBookId)
    {
      var c := pending[id];
      var ok := audio.Unlock(resumeSucceeds);
      if ok {
        speechRequests := speechRequests + [SpeechRequest(c.chunks[c.index].text, c.voice)];
        pending := pending[id := c.(stage := AwaitSynthesis)];
      } else {
        pending := pending - {id};
        if playbackRequest == id {
          isPlaying := false;
        }
      }
    }

    /**
     * `await synthesizeSpeech(...)` of request `id` settles with `payload` (the decoded
     * base64 audio, None when the call fails). A failure clears the flag if the request is
     * current; an answer for a request that is no longer current is dropped; otherwise the
     * answer is decoded and the request waits for the decoder.
     */
    method ResolveSynthesis(id: nat, payload: Option<string>)
      requires Valid()
      requires id in pending && pending[id].stage == AwaitSynthesis
      modifies this, audio
      ensures Valid()
      ensures payload.None? ==> Retired(id, id == old(playbackRequest))
      ensures payload.Some? && id != old(playbackRequest) ==> Retired(id, false)
      ensures payload.Some? && id == old(playbackRequest) ==>
        pending == old(pending)[id := old(pending)[id].(stage := AwaitDecode(DecodePcm(BinaryBytes(payload.value))))]
        && playbackRequest == old(playbackRequest) && isPlaying == old(isPlaying)
        && activeChunkIndex == old(activeChunkIndex)
        && audio.currentSource == old(audio.currentSource) && audio.endedQueue == old(audio.endedQueue)
      ensures LockUnchanged()
      ensures old(Quiet()) ==> Quiet()
      ensures SessionUnchanged() && voice == old(voice)
    {
      var c := pending[id];
      if payload.None? {
        pending := pending - {id};
        if playbackRequest == id {
          isPlaying := false;
        }
        return;
      }
      if playbackRequest != id {
        pending := pending - {id};
        return;
      }
      var decoded := audio.DecodeAudioData(payload.value);
      pending := pending[id := c.(stage := AwaitDecode(decoded))];
    }

    /**
     * `await decodeAudioData(...)` of request `id` settles. A decoding failure clears the
     * flag if the request is current; a result for a request that is no longer current is
     * dropped; otherwise the buffer is played with an `ended` handler for this request.
     */
    method ResolveDecode(id: nat)
      requires Valid()
      requires id in pending && pending[id].stage.AwaitDecode?
      modifies this, audio
      ensures Valid()
      ensures var c := old(pending)[id];
        c.stage.decoded.None? ==> Retired(id, id == old(playbackRequest))
      ensures var c := old(pending)[id];
        c.stage.decoded.Some? && id != old(playbackRequest) ==> Retired(id, false)
      ensures var c := old(pending)[id];
        c.stage.decoded.Some? && id == old(playbackRequest) ==>
          pending == old(pending) - {id}
          && playbackRequest == old(playbackRequest) && isPlaying == old(isPlaying)
          && activeChunkIndex == old(activeChunkIndex)
          && audio.currentSource == Some(Source(c.stage.decoded.value, Ended(id, c.index, c.chunks, c.voice), false))
          && audio.endedQueue == old(audio.endedQueue) + EndedOnStop(old(audio.currentSource))
      ensures LockUnchanged()
      ensures old(Quiet()) ==> Quiet() && audio.currentSource == old(audio.currentSource)
      ensures SessionUnchanged() && voice == old(voice)
    {
      var c := pending[id];
      pending := pending - {id};
      if c.stage.decoded.None? {
        if playbackRequest == id {
          isPlaying := false;
        }
        return;
      }
      if playbackRequest != id {
        return;
      }
      audio.PlayBuffer(c.stage.decoded.value, Ended(id, c.index, c.chunks, c.voice));
    }

    /** The live source plays to its end; its `ended` event is scheduled. */
    method AudioSourceEnds()
      requires Valid()
      modifies audio
      ensures Valid()
      ensures old(audio.currentSource).Some? && !old(audio.currentSource).value.finished ==>
        audio.currentSource == Some(old(audio.currentSource).value.(finished := true))
        && audio.endedQueue == old(audio.endedQueue) + [old(audio.currentSource).value.onEnded]
      ensures !(old(audio.currentSource).Some? && !old(audio.currentSource).value.finished) ==>
        audio.currentSource == old(audio.currentSource) && audio.endedQueue == old(audio.endedQueue)
      ensures LockUnchanged()
      ensures old(Quiet()) ==> Quiet()
    {
      audio.SourceEnds();
    }

    /**
     * The engine delivers the oldest scheduled `ended` event, as written: if its request is
     * still current, the handler's closure asks for the next chunk of its own chunk list with
     * its own voice. After the last chunk that call is refused, and the flag stays on.
     */
    method DeliverEnded()
      requires Valid()
      modifies this, audio
      ensures Valid()
      ensures old(audio.endedQueue) == [] ==> PlaybackUnchanged()
      ensures old(audio.endedQueue) != [] && old(audio.endedQueue)[0].requestId != old(playbackRequest) ==>
        audio.endedQueue == old(audio.endedQueue)[1..]
        && playbackRequest == old(playbackRequest) && isPlaying == old(isPlaying)
        && activeChunkIndex == old(activeChunkIndex) && pending == old(pending)
        && audio.currentSource == old(audio.currentSource)
      ensures old(audio.endedQueue) != [] ==> var e := old(audio.endedQueue)[0];
        e.requestId == old(playbackRequest) && e.index + 1 < |e.chunks| ==>
          playbackRequest == old(playbackRequest) + 1 && isPlaying && activeChunkIndex == e.index + 1
          && pending == old(pending)[playbackRequest := Continuation(e.index + 1, e.chunks, e.voice, AwaitUnlock)]
          && audio.currentSource == None
          && audio.endedQueue == old(audio.endedQueue)[1..] + EndedOnStop(old(audio.currentSource))
      ensures old(audio.endedQueue) != [] ==> var e := old(audio.endedQueue)[0];
        e.requestId == old(playbackRequest) && e.index + 1 == |e.chunks| ==>
          audio.endedQueue == old(audio.endedQueue)[1..]
          && playbackRequest == old(playbackRequest) && isPlaying == old(isPlaying)
          && activeChunkIndex == old(activeChunkIndex) && pending == old(pending)
          && audio.currentSource == old(audio.currentSource)
      ensures LockUnchanged()
      ensures old(Quiet()) ==> Quiet() && audio.currentSource == old(audio.currentSource)
      ensures SessionUnchanged() && voice == old(voice)
    {
      var handler := audio.NextEnded();
      if handler.Some? && handler.value.requestId == playbackRequest {
        var e := handler.value;
        PlayChunk(Some(e.chunks), e.voice, e.index + 1);
      }
    }

    /**
     * Delivery of an `ended` event as intended: after the last chunk of the book the
     * reader stops playing instead of keeping the flag on.
     */
    method DeliverEndedCorrected()
      requires Valid()
      modifies this, audio
      ensures Valid()
      ensures old(audio.endedQueue) == [] ==> PlaybackUnchanged()
      ensures old(audio.endedQueue) != [] && old(audio.endedQueue)[0].requestId != old(playbackRequest) ==>
        audio.endedQueue == old(audio.endedQueue)[1..]
        && playbackRequest == old(playbackRequest) && isPlaying == old(isPlaying)
        && activeChunkIndex == old(activeChunkIndex) && pending == old(pending)
        && audio.currentSource == old(audio.currentSource)
      ensures old(audio.endedQueue) != [] ==> var e := old(audio.endedQueue)[0];
        e.requestId == old(playbackRequest) && e.index + 1 < |e.chunks| ==>
          playbackRequest == old(playbackRequest) + 1 && isPlaying && activeChunkIndex == e.index + 1
          && pending == old(pending)[playbackRequest := Continuation(e.index + 1, e.chunks, e.voice, AwaitUnlock)]
          && audio.currentSource == None
          && audio.endedQueue == old(audio.endedQueue)[1..] + EndedOnStop(old(audio.currentSource))
      ensures old(audio.endedQueue) != [] ==> var e := old(audio.endedQueue)[0];
        e.requestId == old(playbackRequest) && e.index + 1 == |e.chunks| ==>
          audio.endedQueue == old(audio.endedQueue)[1..]
          && playbackRequest == old(playbackRequest) && !isPlaying
          && activeChunkIndex == old(activeChunkIndex) && pending == old(pending)
          && audio.currentSource == old(audio.currentSource)
      ensures LockUnchanged()
      ensures old(Quiet()) ==> Quiet() && audio.currentSource == old(audio.currentSource)
      ensures SessionUnchanged() && voice == old(voice)
    {
      var handler := audio.NextEnded();
      if handler.Some? && handler.value.requestId == playbackRequest {
        var e := handler.value;
        if e.index + 1 < |e.chunks| {
          PlayChunk(Some(e.chunks), e.voice, e.index + 1);
        } else {
          isPlaying := false;
        }
      }
    }
  }
}
