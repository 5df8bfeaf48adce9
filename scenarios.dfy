/**
 * Runs of the reader from mount through a fixed order of user actions and
 * asynchronous completions. Each one states what the screen, the flag and the
 * audio controller hold at the end. The speech service answers with one silent
 * sample (two zero bytes) throughout.
 */
module Scenarios {
  import opened Wrappers
  import opened Types
  import opened Storage
  import opened Audio
  import opened ReaderApp

  /**
   * The current request, waiting for the unlock, runs to the end of its chain: the
   * speech service is called for its chunk, the answer decodes, and its audio plays.
   */
  method CompleteCurrent(app: App)
    requires app.Valid() && !app.audio.suspended
    requires app.playbackRequest in app.pending && app.pending[app.playbackRequest].stage == AwaitUnlock
    modifies app, app.audio
    ensures app.Valid() && !app.audio.suspended
    ensures var c := old(app.pending[app.playbackRequest]);
      app.pending == old(app.pending) - {app.playbackRequest}
      && app.speechRequests == old(app.speechRequests) + [SpeechRequest(c.chunks[c.index].text, c.voice)]
      && app.audio.currentSource.Some?
      && app.audio.currentSource.value.onEnded == Ended(app.playbackRequest, c.index, c.chunks, c.voice)
      && !app.audio.currentSource.value.finished
    ensures app.audio.endedQueue == old(app.audio.endedQueue) + EndedOnStop(old(app.audio.currentSource))
    ensures app.playbackRequest == old(app.playbackRequest) && app.isPlaying == old(app.isPlaying)
    ensures app.activeChunkIndex == old(app.activeChunkIndex) && app.voice == old(app.voice)
    ensures app.appState == old(app.appState) && app.currentBook == old(app.currentBook)
  {
    var id := app.playbackRequest;
    var c := app.pending[id];
    app.ResolveUnlock(id, true);
    assert app.pending == old(app.pending)[id := c.(stage := AwaitSynthesis)];
    app.ResolveSynthesis(id, Some("\0\0"));
    assert app.pending[id].stage.decoded.Some?;
    app.ResolveDecode(id);
  }

  /**
   * Clicking chunk `i` and letting its request complete: chunk `i` is active, the flag
   * is on, and the playing source belongs to the current request and chunk `i`. The
   * speech service was asked for exactly that chunk's text.
   */
  method PlayOneChunk(store: BookStore, book: Book, i: int) returns (app: App)
    requires 0 <= i < |book.chunks|
    ensures app.Valid()
    ensures app.appState == Reader && app.isPlaying && app.activeChunkIndex == i
    ensures app.audio.currentSource.Some?
    ensures app.audio.currentSource.value.onEnded == Ended(app.playbackRequest, i, book.chunks, AvailableVoices[0])
    ensures app.speechRequests == [SpeechRequest(book.chunks[i].text, AvailableVoices[0])]
    ensures app.pending == map[]
  {
    app := new App(store, false);
    app.HandleBookSelect(book);
    app.HandleChunkSelect(i);
    assert app.playbackRequest == 1 && app.pending == map[1 := Continuation(i, book.chunks, AvailableVoices[0], AwaitUnlock)];
    CompleteCurrent(app);
  }

  /**
   * Clicking chunk `i` and then chunk `j` before either completes: the first request
   * still calls the speech service, but its audio is dropped, and only chunk `j` plays.
   */
  method SupersededRequest(store: BookStore, book: Book, i: int, j: int) returns (app: App)
    requires 0 <= i < |book.chunks| && 0 <= j < |book.chunks|
    ensures app.Valid()
    ensures app.isPlaying && app.activeChunkIndex == j && app.playbackRequest == 2
    ensures app.audio.currentSource.Some?
    ensures app.audio.currentSource.value.onEnded == Ended(2, j, book.chunks, AvailableVoices[0])
    ensures app.speechRequests
      == [SpeechRequest(book.chunks[i].text, AvailableVoices[0]), SpeechRequest(book.chunks[j].text, AvailableVoices[0])]
    ensures app.audio.endedQueue == [] && app.pending == map[]
  {
    app := ClickTwice(store, book, i, j);
    StaleRunsOut(app, 1);
    assert app.pending == map[1 := Continuation(i, book.chunks, AvailableVoices[0], AwaitUnlock),
                              2 := Continuation(j, book.chunks, AvailableVoices[0], AwaitUnlock)] - {1};
    assert app.speechRequests == [SpeechRequest(book.chunks[i].text, AvailableVoices[0])];
    CompleteCurrent(app);
  }

  /**
   * A request that is no longer current, waiting for the unlock, runs out: the speech
   * service is still called for its chunk, and the answer is then dropped.
   */
  method StaleRunsOut(app: App, id: nat)
    requires app.Valid() && !app.audio.suspended
    requires id in app.pending && app.pending[id].stage == AwaitUnlock && id != app.playbackRequest
    modifies app, app.audio
    ensures app.Valid() && !app.audio.suspended
    ensures var c := old(app.pending[id]);
      app.pending == old(app.pending) - {id}
      && app.speechRequests == old(app.speechRequests) + [SpeechRequest(c.chunks[c.index].text, c.voice)]
    ensures app.audio.currentSource == old(app.audio.currentSource) && app.audio.endedQueue == old(app.audio.endedQueue)
    ensures app.playbackRequest == old(app.playbackRequest) && app.isPlaying == old(app.isPlaying)
    ensures app.activeChunkIndex == old(app.activeChunkIndex) && app.voice == old(app.voice)
  {
    var c := app.pending[id];
    app.ResolveUnlock(id, true);
    assert app.pending == old(app.pending)[id := c.(stage := AwaitSynthesis)];
    app.ResolveSynthesis(id, Some("\0\0"));
  }

  /** Chunk `i` and then chunk `j` are clicked: both requests wait for the unlock, and `j`'s is current. */
  method ClickTwice(store: BookStore, book: Book, i: int, j: int) returns (app: App)
    requires 0 <= i < |book.chunks| && 0 <= j < |book.chunks|
    ensures fresh(app) && fresh(app.audio)
    ensures app.Valid() && !app.audio.suspended && !app.audio.isUnlocked
    ensures app.isPlaying && app.activeChunkIndex == j && app.playbackRequest == 2
    ensures app.pending == map[1 := Continuation(i, book.chunks, AvailableVoices[0], AwaitUnlock),
                               2 := Continuation(j, book.chunks, AvailableVoices[0], AwaitUnlock)]
    ensures app.speechRequests == [] && app.audio.currentSource == None && app.audio.endedQueue == []
  {
    app := new App(store, false);
    app.HandleBookSelect(book);
    app.HandleChunkSelect(i);
    assert app.playbackRequest == 1 && app.audio.endedQueue == [];
    app.HandleChunkSelect(j);
  }

  /**
   * Opening a book and pressing play: the request for the saved chunk runs to the end,
   * and that chunk's audio is playing.
   */
  method PlayFromSaved(store: BookStore, book: Book) returns (app: App)
    requires 0 <= book.lastReadChunkIndex < |book.chunks|
    ensures fresh(app) && fresh(app.audio)
    ensures app.Valid() && !app.audio.suspended
    ensures app.appState == Reader && app.currentBook == Some(book)
    ensures app.isPlaying && app.activeChunkIndex == book.lastReadChunkIndex && app.playbackRequest == 1
    ensures app.voice == AvailableVoices[0]
    ensures app.pending == map[] && app.audio.endedQueue == []
    ensures app.audio.currentSource.Some? && !app.audio.currentSource.value.finished
    ensures app.audio.currentSource.value.onEnded == Ended(1, book.lastReadChunkIndex, book.chunks, AvailableVoices[0])
    ensures app.speechRequests == [SpeechRequest(book.chunks[book.lastReadChunkIndex].text, AvailableVoices[0])]
  {
    app := new App(store, false);
    app.HandleBookSelect(book);
    app.TogglePlayPause();
    assert app.playbackRequest == 1 && app.pending == map[1 := Continuation(book.lastReadChunkIndex, book.chunks, AvailableVoices[0], AwaitUnlock)];
    CompleteCurrent(app);
  }

  /**
   * Going back to the library while chunk 0 plays, as written: stopping the source fires
   * its `ended` event, whose request is still current, so chunk 1 is requested and then
   * played on the library screen with no book open.
   */
  method LeaveWhilePlaying(store: BookStore, book: Book) returns (app: App)
    requires |book.chunks| >= 2 && book.lastReadChunkIndex == 0
    ensures app.Valid()
    ensures app.appState == Idle && app.currentBook == None
    ensures app.isPlaying && app.activeChunkIndex == 1
    ensures app.audio.currentSource.Some? && app.audio.currentSource.value.onEnded.index == 1
    ensures app.speechRequests
      == [SpeechRequest(book.chunks[0].text, AvailableVoices[0]), SpeechRequest(book.chunks[1].text, AvailableVoices[0])]
  {
    app := PlayFromSaved(store, book);
    app.HandleBackToLibrary();
    assert app.audio.endedQueue == [Ended(1, 0, book.chunks, AvailableVoices[0])] && app.playbackRequest == 1;
    app.DeliverEnded();
    assert app.playbackRequest == 2 && app.pending == map[2 := Continuation(1, book.chunks, AvailableVoices[0], AwaitUnlock)];
    CompleteCurrent(app);
  }

  /**
   * The same run with the corrected handler: the `ended` event of the stopped source is
   * stale, nothing is pending or playing, and nothing is left that could start audio.
   */
  method LeaveWhilePlayingCorrected(store: BookStore, book: Book) returns (app: App)
    requires |book.chunks| >= 2 && book.lastReadChunkIndex == 0
    ensures app.Valid() && app.Quiet()
    ensures app.appState == Idle && app.currentBook == None && !app.isPlaying
    ensures app.audio.currentSource == None && app.audio.endedQueue == [] && app.pending == map[]
    ensures app.speechRequests == [SpeechRequest(book.chunks[0].text, AvailableVoices[0])]
  {
    app := PlayFromSaved(store, book);
    app.HandleBackToLibraryCorrected();
    assert app.audio.endedQueue == [Ended(1, 0, book.chunks, AvailableVoices[0])] && app.playbackRequest == 2;
    app.DeliverEnded();
  }

  /**
   * Playing the last chunk to its end, as written: the request for the next chunk is
   * refused, nothing is pending or scheduled, and yet the flag stays on.
   */
  method EndOfBook(store: BookStore, book: Book) returns (app: App)
    requires |book.chunks| >= 1 && book.lastReadChunkIndex == |book.chunks| - 1
    ensures app.Valid()
    ensures app.isPlaying
    ensures app.pending == map[] && app.audio.endedQueue == []
    ensures app.audio.currentSource.Some? && app.audio.currentSource.value.finished
  {
    app := PlayFromSaved(store, book);
    app.AudioSourceEnds();
    assert app.audio.endedQueue == [Ended(1, book.lastReadChunkIndex, book.chunks, AvailableVoices[0])];
    app.DeliverEnded();
  }

  /** The same run with the corrected delivery: the reader stops at the end of the book. */
  method EndOfBookCorrected(store: BookStore, book: Book) returns (app: App)
    requires |book.chunks| >= 1 && book.lastReadChunkIndex == |book.chunks| - 1
    ensures app.Valid()
    ensures !app.isPlaying
    ensures app.pending == map[] && app.audio.endedQueue == []
    ensures app.audio.currentSource.Some? && app.audio.currentSource.value.finished
  {
    app := PlayFromSaved(store, book);
    app.AudioSourceEnds();
    assert app.audio.endedQueue == [Ended(1, book.lastReadChunkIndex, book.chunks, AvailableVoices[0])];
    app.DeliverEndedCorrected();
  }

  /**
   * Choosing voice `v` while playing, as written: the voice shown is `v`, but the request
   * issued again asks the speech service for the old voice.
   */
  method VoiceChangeWhilePlaying(store: BookStore, book: Book, v: Voice) returns (app: App)
    requires 0 <= book.lastReadChunkIndex < |book.chunks|
    requires v != AvailableVoices[0]
    ensures app.Valid()
    ensures app.voice == v && app.isPlaying && app.playbackRequest == 2
    ensures app.speechRequests == [SpeechRequest(book.chunks[book.lastReadChunkIndex].text, AvailableVoices[0])]
  {
    app := new App(store, false);
    app.HandleBookSelect(book);
    app.TogglePlayPause();
    app.HandleVoiceChange(v);
    app.ResolveUnlock(2, true);
  }

  /** The same run with the corrected handler: the speech service is asked for `v`. */
  method VoiceChangeWhilePlayingCorrected(store: BookStore, book: Book, v: Voice) returns (app: App)
    requires 0 <= book.lastReadChunkIndex < |book.chunks|
    ensures app.Valid()
    ensures app.voice == v && app.isPlaying && app.playbackRequest == 2
    ensures app.speechRequests == [SpeechRequest(book.chunks[book.lastReadChunkIndex].text, v)]
  {
    app := new App(store, false);
    app.HandleBookSelect(book);
    app.TogglePlayPause();
    app.HandleVoiceChangeCorrected(v);
    app.ResolveUnlock(2, true);
  }
}
