# Gemini Reader: playback sequencer, audio controller, library store and text cleaner

Gemini Reader turns a PDF into an audiobook. It extracts the text page by page and cleans it. It splits the text into numbered paragraph chunks tagged with their page, and keeps a library of books in the browser's local storage. Then it plays synthesized speech chunk after chunk while the reading position follows along.

This project is a Dafny model of the core of that program:

- **`ReaderApp`** (App.tsx) is the reader component as a class `App`.
  - Its fields are the React state (`appState`, `books`, `currentBook`, `isPlaying`, `voice`, `activeChunkIndex`) and the request counter `playbackRequestRef`.
  - Every handler is a method.
  - The asynchronous part of `playChunk` is modelled as a map of suspended calls keyed by request id. Each call waits on the unlock, on the speech service or on the decoder. `ResolveUnlock`, `ResolveSynthesis` and `ResolveDecode` resume one of them with an outcome chosen by the caller.
  - `AudioSourceEnds` and `DeliverEnded` model the audio engine finishing a source and delivering its `ended` event.
  - A suspended call and an `ended` handler both carry the chunk list and the voice of the `playChunk` closure that created them, because that is what the closure reads after each `await`. The counter, by contrast, is read live.
  - The progress-persisting effect is `RunProgressEffect`. It remembers the dependencies it last ran with.
- **`Upload`** (App.tsx:64-139) covers the page fallback decision and the chunk-building loops. Their result is `ChunksOf`, which numbers the chunks 0, 1, 2, … across pages.
  - The paragraph split `split(/\n\s*\n/)` is a left-to-right scan. At each position it takes the leftmost match. The greedy `\s*` backs off to the last line feed of the whitespace run.
  - Every length test (`length > 5`, `length < 10`, `length < 100`) counts UTF-16 code units, as JavaScript strings do. A character above U+FFFF counts twice (`CodeUnits`).
  - `replace('.pdf', '')` with a string pattern removes only the first occurrence.
- **`Navigation`** holds the seek clamp and the go-to-page lookup.
- **`Audio`** (services/audioUtils.ts) is the audio controller as a class.
  - It has one live-source slot and the queue of `ended` events the engine will still deliver.
  - Web Audio fires `ended` on `stop()` as well as at the natural end, and the controller never detaches `onended`, so a stopped source's handler is queued too.
  - The byte-copy loop and the little-endian PCM decoding loop work on arrays.
- **`Storage`** (services/storageService.ts) models the book list under one storage key as a class `BookStore`. Its `full` flag makes `setItem` throw.
- **`TextCleaner`** models `cleanPdfText` as three left-to-right scans, one for each regular-expression rewrite.
- **`Scenarios`** holds complete runs from mount through a fixed order of user actions and completions, one for each finding below.

The central invariant is `App.Valid`: no live request (waiting, playing, or with an undelivered `ended` event) is newer than the counter, and each one points at a chunk of its own list. A second predicate, `App.Quiet`, says that no live request is current, so nothing pending can play or advance. Pausing establishes `Quiet`, and every asynchronous event preserves it.

Points where the code's behaviour departs from what its own structure evidently intends, or is easy to misread:

- **Voice.** `playChunk` is a `useCallback` over `[currentBook, voice]` (App.tsx:141-173). `handleVoiceChange` sets the voice and then calls the `playChunk` of the current render (App.tsx:225-228), whose closure still holds the previous voice. The chunk is therefore requested again with the old voice, although the point of re-issuing it is to switch voices (Findings).
- **End of the book.** The `ended` handler calls `playChunk(index + 1)` (App.tsx:161-165). After the last chunk, the guard at App.tsx:142 refuses that call silently, so `isPlaying` stays true with nothing playing. Every other way of stopping clears the flag (App.tsx:170, 184) (Findings).
- **Leaving the book.** Pausing stops the source and bumps the counter (App.tsx:183-185), so the stopped source's handler is stale. `handleBackToLibrary` stops the source the same way (App.tsx:231) but does not bump the counter. `stop()` does not detach `onended`, and Web Audio fires `ended` on a stopped source, so the handler still finds its request current and plays the next chunk (Findings).
- **Empty audio.** `decodeRawPCM` asks `createBuffer` for a buffer of `frameCount` frames (services/audioUtils.ts:48-51). Web Audio rejects a length of 0, so an empty payload makes decoding throw (`DecodePcm` returns None).
- **Out-of-range chunk.** The guard at App.tsx:142 returns without changing anything when there is no book or no chunk at the index.
- **Stale requests.** The counter is checked after the speech call and after decoding (App.tsx:155, 159), not between the unlock and the speech call (App.tsx:152-153). A superseded request therefore still calls the speech service once the unlock settles (`ResolveUnlock`, `Scenarios.SupersededRequest`). Only its audio is dropped.

## Model

| member | source | states |
|---|---|---|
| TextCleaner.CollapseBlanks | services/pdfUtils.ts:59 | every run of spaces and tabs becomes one space: the output is no longer than the input, is empty only when the input is, has no tab and no two adjacent spaces |
| TextCleaner.CollapseBlanksIdentity | services/pdfUtils.ts:59 | text without tabs and without double spaces is left exactly as it is |
| TextCleaner.CollapseBlanksIdempotent | services/pdfUtils.ts:59 | applying the first rewrite twice gives the same text as applying it once |
| TextCleaner.HyphenBreakShape | services/pdfUtils.ts:61 | a match at the start is a maximal word, a hyphen, white space containing a newline, and a maximal word |
| TextCleaner.JoinHyphens | services/pdfUtils.ts:61 | the hyphen rewrite never lengthens the text, keeps its first character and introduces no new character |
| TextCleaner.JoinHyphensJoins | services/pdfUtils.ts:60-61 | `word-`, blanks containing a newline, then `word` become the two words joined, and the scan continues after them |
| TextCleaner.JoinHyphensKeepsSingleSpaces | services/pdfUtils.ts:59-61 | the hyphen rewrite cannot create two adjacent spaces in text that has none |
| TextCleaner.CollapseNewlines | services/pdfUtils.ts:63 | every run of three or more newlines becomes two: the output is no longer and has no three consecutive newlines |
| TextCleaner.CollapseNewlinesKeepsSingleSpaces | services/pdfUtils.ts:63 | the newline rewrite cannot create two adjacent spaces |
| TextCleaner.CollapseNewlinesIdentity | services/pdfUtils.ts:63 | text without three consecutive newlines is left exactly as it is |
| TextCleaner.CleanPdfText | services/pdfUtils.ts:56-64 | the cleaned text is never longer than the raw text, and has no tab, no two adjacent spaces and no three consecutive newlines |
| TextCleaner.CleanJoinsHyphenatedWord | services/pdfUtils.ts:60-61 | "amaz-\n ing" is cleaned to "amazing" |
| Upload.CodeUnits | App.tsx:84 | a string's JavaScript length lies between its number of characters and twice that |
| Upload.CodeUnitsAppend | App.tsx:84 | the code-unit length of a concatenation is the sum of the lengths |
| Upload.CodeUnitsBmp | App.tsx:105 | text with no character above U+FFFF is as many code units long as it has characters |
| Upload.CodeUnitsAstral | App.tsx:105 | text made only of characters above U+FFFF is twice as many code units long as it has characters |
| Upload.SeparatorShape | App.tsx:103 | a match of `/\n\s*\n/` is a line feed, whitespace, and a line feed |
| Upload.SeparatorLongest | App.tsx:103 | the greedy `\s*` makes the match reach past every blank line that starts at its line feed |
| Upload.SplitParagraphs | App.tsx:103 | the split yields at least one piece |
| Upload.SplitPiecesNoBlankLine | App.tsx:103 | no piece of the split contains a line feed, whitespace and a line feed: the split happens at every match |
| Upload.SeparatorsShape | App.tsx:103 | everything the split removes between two pieces is one match of the regular expression |
| Upload.SplitRoundTrip | App.tsx:103 | putting each removed match back between its two pieces gives the original text, so the split loses nothing else |
| Upload.Trim | App.tsx:104 | the trimmed piece is a slice of the piece with only whitespace outside it, and neither starts nor ends with whitespace |
| Upload.TrimTrimmed | App.tsx:104 | a piece that neither starts nor ends with whitespace is its own trim |
| Upload.TrimKeepsNoBlankLine | App.tsx:103-104 | trimming a piece without a blank line leaves it without one |
| Upload.KeepParagraphs | App.tsx:103-105 | the filter keeps at most one paragraph per piece |
| Upload.KeepParagraphsMembers | App.tsx:103-105 | a paragraph is kept exactly when it is the trim of a piece and longer than 5 code units: every kept one is such a trim, and every such trim is kept |
| Upload.KeepParagraphsAppend | App.tsx:103-105 | filtering two runs of pieces one after the other is filtering their concatenation, so the order is kept |
| Upload.KeepParagraphsSingle | App.tsx:104-105 | a single piece gives its trim when that is longer than 5 code units, and nothing otherwise |
| Upload.Paragraphs | App.tsx:101-105 | a page yields at most one paragraph per piece of the split of its cleaned text |
| Upload.ParagraphsShape | App.tsx:101-105 | every paragraph of a page is longer than 5 code units, neither starts nor ends with whitespace, and contains no blank line |
| Upload.AstralParagraphKept | App.tsx:105 | five characters above U+FFFF are ten code units, so the filter keeps them as a paragraph |
| Upload.Tagged | App.tsx:100-113 | every tagged paragraph is longer than 5 code units |
| Upload.TaggedPages | App.tsx:100-113 | every tagged paragraph is a paragraph of a page that carries the number it is tagged with |
| Upload.TaggedPageNumbers | App.tsx:100-113 | every tagged page number is the number of one of the pages |
| Upload.ChunksOf | App.tsx:97-114 | the chunk ids are the positions 0, 1, 2, …, one chunk per tagged paragraph |
| Upload.ChunksOfWellFormed | App.tsx:97-114 | the chunk ids are 0, 1, 2, … in order, each text is longer than 5 code units, and each page is one of the input's page numbers |
| Upload.BuildChunks | App.tsx:97-114 | the two nested loops with the running `currentId` build exactly `ChunksOf(pages)` |
| Upload.PushParagraphs | App.tsx:107-113 | one page's paragraphs are appended in order, with ids continuing from the list's length and the page's number |
| Upload.NeedsOcr | App.tsx:84 | the scanned-document test: when it holds, the cleaned text has fewer than 100 characters; below 50 characters it always holds |
| Upload.Unreadable | App.tsx:92 | the unreadable test: when it holds, every page has fewer than 10 characters; when every page has fewer than 5, it holds |
| Upload.TotalPages | App.tsx:127 | the page count is the last page's number, or 1 when there is no page or that number is 0; it is never 0 |
| Upload.FirstPdf | App.tsx:121 | the position of the leftmost ".pdf" in the file name, or -1 when it has none |
| Upload.TitleOf | App.tsx:121 | the file name cut around its first ".pdf", or the whole name when it has none |
| Upload.TitleStripsExtension | App.tsx:121 | the title of "stem.pdf", where the stem holds no ".pdf", is the stem |
| Navigation.SeekIndex | App.tsx:207-212 | the seek target is `floor(p/100 · n)` clamped into `[0, n-1]`: 0 at or below 0 %, the last chunk at or above 100 %, 0 for an empty book |
| Navigation.SeekMonotone | App.tsx:209-210 | a larger percentage never seeks to an earlier chunk |
| Navigation.SeekHalfway | App.tsx:209-210 | 50 % of a ten-chunk book is chunk 5 |
| Navigation.FirstAtOrAfter | App.tsx:216 | the position of the first chunk whose page is at least the page asked for, and None exactly when every chunk lies before it |
| Navigation.GoToPageTargetFinds | App.tsx:216-218 | when chunk k is the first whose page is at least the page asked for, the target is chunk k's id |
| Navigation.GoToPagePastEnd | App.tsx:219-221 | when every chunk lies before the page, the target is the last position |
| Navigation.GoToPageInRange | App.tsx:214-223 | on a numbered, non-empty chunk list the go-to-page target is a valid index: the first chunk on or after the page, otherwise the last chunk |
| Navigation.GoToPageOnUploadedBook | App.tsx:214-223 | on any uploaded book's chunks the go-to-page target is a valid index |
| Navigation.GoToPageExample | App.tsx:216-222 | with chunks on pages 1, 1, 2, 2, 3, 4, going to page 3 lands on chunk 4 |
| Audio.Int16LE | services/audioUtils.ts:49 | the sample read from two bytes as a little-endian two's-complement 16-bit value lies in `[-32768, 32767]` |
| Audio.Int16LEBits | services/audioUtils.ts:49 | the sample taken modulo 2^16 is the unsigned value `lo + 256·hi` of its two bytes |
| Audio.SampleRoundTrip | services/audioUtils.ts:49 | splitting a 16-bit sample into its two bytes and reading them back gives the sample |
| Audio.BytesRoundTrip | services/audioUtils.ts:49 | reading two bytes as a sample and splitting it again gives the same two bytes |
| Audio.Normalize | services/audioUtils.ts:57 | `sample / 32768` lies in `[-1, 1)` and keeps the sample's sign |
| Audio.DecodePcm | services/audioUtils.ts:48-61 | decoding succeeds exactly on a non-empty even byte count, at 24000 Hz, with one frame per two bytes |
| Audio.DecodePcmShape | services/audioUtils.ts:48-61 | decoding succeeds exactly on a non-empty even byte count, at 24000 Hz, with one frame per two bytes, frame k normalized from bytes 2k and 2k+1 |
| Audio.DecodeEncodeRoundTrip | services/audioUtils.ts:48-61 | decoding the little-endian bytes of a non-empty list of samples yields exactly those samples normalized |
| Audio.BinaryBytes | services/audioUtils.ts:26-31 | one byte per character of the binary string, and each byte is the character's code whenever that code is below 256 |
| Audio.EndedOnStop | services/audioUtils.ts:75-85 | stopping schedules the live source's `ended` handler exactly when a source is live and has not finished |
| Audio.AudioController.constructor | services/audioUtils.ts:8-14 | a new controller is locked, has no source and no scheduled `ended` event |
| Audio.AudioController.Unlock | services/audioUtils.ts:17-23 | once unlocked, unlock changes nothing; otherwise it succeeds when the context is running or resumes, and a failed resume leaves it locked |
| Audio.AudioController.Stop | services/audioUtils.ts:75-85 | the slot is emptied, the stopped source's handler is scheduled, and stopping an empty slot changes nothing |
| Audio.AudioController.PlayBuffer | services/audioUtils.ts:63-73 | the previous source is stopped first, with its handler scheduled, and the new source is the only live one |
| Audio.AudioController.SourceEnds | services/audioUtils.ts:70 | a source reaching its natural end schedules its handler once |
| Audio.AudioController.NextEnded | services/audioUtils.ts:70 | scheduled handlers are delivered oldest first, each once |
| Audio.AudioController.DecodeAudioData | services/audioUtils.ts:25-46 | the byte-copy loop feeds the PCM decoder; the result is the decoding of the string's bytes, present exactly for a non-empty even length |
| Audio.AudioController.DecodeRawPcm | services/audioUtils.ts:48-61 | the sample loop fills the channel with exactly the decoding of the array's bytes |
| Storage.WithoutId | services/storageService.ts:9 | a book remains exactly when it was in the list and carries a different id |
| Storage.WithoutIdAppend | services/storageService.ts:9 | filtering keeps the relative order of the remaining books |
| Storage.WithoutIdAbsent | services/storageService.ts:40-45 | deleting an id that no book carries leaves the list equal |
| Storage.WithoutIdIdempotent | services/storageService.ts:40-45 | deleting the same id twice is the same as deleting it once |
| Storage.SavedShape | services/storageService.ts:5-12 | after a save the book is first in the list read back, no other entry has its id, every other old book is kept, and nothing else is added |
| Storage.FindIndex | services/storageService.ts:31 | the first position holding the id, and None exactly when no book has it |
| Storage.SetProgress | services/storageService.ts:34-35 | the book at that position gets the new chunk index and date, and every other entry is unchanged |
| Storage.ProgressUpdated | services/storageService.ts:29-38 | after an update of a present id the list has the same length, a book of that id has the new index, and books of other ids are unchanged |
| Storage.BookStore.GetBooks | services/storageService.ts:19-27 | the stored list, or the empty list when nothing is stored or it does not parse |
| Storage.BookStore.SaveBook | services/storageService.ts:5-17 | the stored list becomes the book followed by the old list without its id; a failed write leaves the store unchanged |
| Storage.BookStore.UpdateBookProgress | services/storageService.ts:29-38 | a present id has its progress written; an unknown id writes nothing; a failed write throws and leaves the store unchanged |
| Storage.BookStore.DeleteBook | services/storageService.ts:40-45 | the old list without every book of that id is stored and returned; a failed write throws and leaves the store unchanged |
| ReaderApp.MarkRead | App.tsx:43 | the books with the open book's id get the new position, and every other book is unchanged |
| ReaderApp.ExtractedPages | App.tsx:70-90 | the pages handed on are never an empty list, and pages other than the local ones are exactly the OCR text as page 1 |
| ReaderApp.ExtractedPagesFallback | App.tsx:70-90 | mostly the case split of the fallback: the local pages are kept exactly when extraction succeeded and the cleaned text is at least 100 code units; otherwise the OCR text becomes page 1, and a failed OCR call yields nothing. The fact it adds is that a failed local extraction always goes to OCR, since the empty text is below the threshold |
| ReaderApp.NewBook | App.tsx:119-128 | the new book's chunk count matches its chunks, the chunks are numbered from 0, it opens at chunk 0, both dates are the upload time, and the title is the file name without its first ".pdf" |
| ReaderApp.App.constructor | App.tsx:28-34 | mount: the library is loaded from the store, the controller is new, nothing plays, and the invariant holds with nothing current |
| ReaderApp.App.PlayChunk | App.tsx:141-173 | an accepted request bumps the counter, sets the flag and index, stops the old source and waits for the unlock; with no book or no chunk at the index nothing changes |
| ReaderApp.App.HandleBookSelect | App.tsx:47-51 | opens the book at its last read chunk on the reader screen, without touching playback |
| ReaderApp.App.HandleDeleteBook | App.tsx:53-62 | after confirmation the list shown is the store's list without the id, and an open book with that id is closed; a failed write changes nothing |
| ReaderApp.App.HandleUpload | App.tsx:64-139 | no pages, unreadable pages or no paragraph give the error screen with store and book unchanged; otherwise the new book with the numbered chunks is saved, the list is reloaded, and the book opens at chunk 0 |
| ReaderApp.App.CreateBook | App.tsx:97-132 | pages that yield no chunk give the error screen with store and book unchanged; otherwise the book with the numbered chunks, page count and title is saved in front of the library, the list is reloaded and the book opens at chunk 0 |
| ReaderApp.App.RunProgressEffect | App.tsx:37-45 | when the position or the book changed, the position is written to the store and copied into the open book and the list; a failed write stops before the local copies |
| ReaderApp.App.TogglePlayPause | App.tsx:179-189 | outside the reader nothing happens; while playing, audio stops, the flag clears and the counter moves on, leaving nothing current; while paused, the active chunk is requested again |
| ReaderApp.App.HandleNext | App.tsx:191-195 | the next chunk is requested only when the active one is not the last |
| ReaderApp.App.HandlePrev | App.tsx:197-201 | the previous chunk is requested only when the active one is not the first |
| ReaderApp.App.HandleChunkSelect | App.tsx:203-205 | the clicked chunk is requested |
| ReaderApp.App.HandleSeek | App.tsx:207-212 | the chunk at the clamped percentage is requested whenever a non-empty book is open |
| ReaderApp.App.HandleGoToPage | App.tsx:214-223 | the first chunk on or after the page, otherwise the last, is requested, and on a numbered chunk list playback always starts |
| ReaderApp.App.HandleVoiceChange | App.tsx:225-228 | the voice is set, and a playing chunk is requested again with the previous voice |
| ReaderApp.App.HandleVoiceChangeCorrected | App.tsx:225-228 | the voice is set, and a playing chunk is requested again with the new voice |
| ReaderApp.App.HandleBackToLibrary | App.tsx:230-235 | audio stops, the flag clears and the book closes, but the counter and every live request stay as they were |
| ReaderApp.App.HandleBackToLibraryCorrected | App.tsx:230-235 | as above, and the counter moves on, so nothing live is current |
| ReaderApp.App.ResolveUnlock | App.tsx:152-153 | a successful unlock calls the speech service for the request's own chunk and voice, current or not; a failed unlock ends the request and clears the flag only if it is current |
| ReaderApp.App.ResolveSynthesis | App.tsx:153-157 | a failed call ends the request and clears the flag only if it is current; an answer for a stale request is dropped; otherwise it is decoded |
| ReaderApp.App.ResolveDecode | App.tsx:157-165 | a failed decode ends the request and clears the flag only if it is current; a stale result is dropped; otherwise the buffer plays with this request's `ended` handler |
| ReaderApp.App.AudioSourceEnds | services/audioUtils.ts:70 | the live source reaches its end and its handler is scheduled once, leaving the app's state alone |
| ReaderApp.App.DeliverEnded | App.tsx:161-165 | a stale handler does nothing; a current one requests the next chunk of its own list with its own voice; after the last chunk nothing changes and the flag stays on |
| ReaderApp.App.DeliverEndedCorrected | App.tsx:161-165 | as above, except that after the last chunk the flag is cleared |
| Scenarios.CompleteCurrent | App.tsx:152-165 | the current request with working unlock, speech and decoder ends with its own chunk's audio playing under its own `ended` handler |
| Scenarios.PlayOneChunk | App.tsx:141-173 | clicking chunk i and letting it complete plays chunk i, with the flag on and exactly one speech call for chunk i |
| Scenarios.ClickTwice | App.tsx:203-205 | two clicks issue requests 1 and 2, both waiting, with the second current |
| Scenarios.StaleRunsOut | App.tsx:152-159 | a request that is no longer current still calls the speech service for its own chunk, and its answer is then dropped without touching playback |
| Scenarios.SupersededRequest | App.tsx:155-159 | when chunk j is clicked before chunk i's request completes, only chunk j's audio plays |
| Scenarios.PlayFromSaved | App.tsx:179-189 | opening a book and pressing play ends with the saved chunk playing under request 1, after exactly one speech call |
| Scenarios.LeaveWhilePlaying | App.tsx:230-235 | going back to the library while chunk 0 plays ends with chunk 1 playing on the library screen |
| Scenarios.LeaveWhilePlayingCorrected | App.tsx:230-235 | with the corrected handler nothing is pending, scheduled or playing after going back |
| Scenarios.EndOfBook | App.tsx:161-164 | playing the last chunk to its end leaves nothing pending and the flag still on |
| Scenarios.EndOfBookCorrected | App.tsx:161-164 | with the corrected delivery the flag is off at the end of the book |
| Scenarios.VoiceChangeWhilePlaying | App.tsx:225-228 | choosing a voice while playing shows the new voice but asks the speech service for the old one |
| Scenarios.VoiceChangeWhilePlayingCorrected | App.tsx:225-228 | with the corrected handler the speech service is asked for the new voice |

## Left out

- React rendering, state batching and effect scheduling are left out. Each handler sets its fields at once. The progress effect is a method that the environment calls after a render. The environment also chooses the order of events.
- Async steps inside `handleUpload` are taken as one step. The user cannot interleave anything on the extraction screen.
- UI components (bookshelf, reader view, control bar, uploader, spinner) are presentation, as are the processing-status strings and the alerts.
- `HandleGoToPage` takes any page. The control bar's `1 ≤ page ≤ totalPages` check is not a precondition of the handler.
- The speech service, the OCR call and the local pdf.js extractor are network or foreign code. They are inputs of the model: `ResolveSynthesis`'s payload, and `HandleUpload`'s `local` and `ocr` options.
- `atob` is left out: the payload is the already decoded binary string. `fileToBase64` is left out too.
- Web Audio internals are left out: the audio context, the gain node, `setVolume` and sample-rate playback. The controller keeps only the live-source slot, its finished flag and the queue of `ended` events.
- `DecodeRawPcm` covers only one channel (`numChannels` is always 1) and a little-endian platform, since `Int16Array` uses the platform's byte order.
- An odd byte count is treated as a decoding failure. The `Int16Array` view of an odd-length buffer throws.
- Floating point is left out. The seek percentage is a real number with `.Floor`, and `sample / 32768` is an exact real.
- The progress bar's arithmetic and the click-to-percentage geometry are presentation.
- `Date.now()` ids and timestamps are left out. The book id is a parameter, and the clock is a field that the environment sets (`SetClock`).
- JSON serialization is left out. The storage key holds nothing, a list of books, or text that does not parse.
- `JSON.parse` returning something other than an array is not modelled.
- `playChunk`'s check for a missing audio controller is not modelled. The controller exists from mount on, as it does after the mount effect.
- The unmount cleanup that stops the controller is left out.
- The throw of `updateBookProgress` is modelled as ending the effect before its local updates. What React does with an exception escaping an effect is not part of this model.
- The `unlock` part that runs before the first `await` changes nothing the model observes. The whole unlock happens in `ResolveUnlock`.
- `handleBookSelect`'s `|| 0` only maps a missing or NaN position to 0. Book positions are integers here, so the position is taken as it is.
- The regular-expression engine is not modelled. `SplitFrom` implements the one pattern `/\n\s*\n/` of the split directly, and `SeparatorAt` implements its greedy match at one position.
- BinaryBytes: its contract states each byte only for character codes below 256, which are the only codes `atob` produces. A higher code would be stored modulo 256, as a `Uint8Array` stores it; the body does this but the contract does not say so.

## Findings

| source | as written | input that shows it | evidently intended | confidence | as-written member | corrected member |
|---|---|---|---|---|---|---|
| App.tsx:230-235 | going back to the library stops the source but does not bump the counter; the stopped source's `ended` handler still fires and its request is current | a book with two chunks, chunk 0 playing, then Back to library: chunk 1 is requested and its audio plays on the library screen with no book open | bump the counter as pausing does, so the stopped request is stale | high; not executed | Scenarios.LeaveWhilePlaying | ReaderApp.App.HandleBackToLibraryCorrected |
| App.tsx:161-164 | after the last chunk the handler's `playChunk(index + 1)` is refused silently and the flag is never cleared | a one-chunk book played to its end: nothing is pending or scheduled, yet the reader shows it as playing | clear the playing flag at the end of the book | high; not executed | Scenarios.EndOfBook | ReaderApp.App.DeliverEndedCorrected |
| App.tsx:225-228 | the voice change re-issues the chunk through the closure of the current render, which still holds the previous voice | playing with Puck, choose Kore: the speech service is asked for Puck | the re-issued request uses the newly chosen voice | high; not executed | Scenarios.VoiceChangeWhilePlaying | ReaderApp.App.HandleVoiceChangeCorrected |
