/** The records of types.ts: voices, the screen the app shows, text chunks and books. */
module Types {
  datatype Gender = Male | Female

  /** A prebuilt speech voice (VoiceConfig). */
  datatype Voice = Voice(name: string, displayLabel: string, gender: Gender)

  const AvailableVoices: seq<Voice> := [
    Voice("Puck", "Puck (Male)", Male),
    Voice("Kore", "Kore (Female)", Female),
    Voice("Fenrir", "Fenrir (Male)", Male),
    Voice("Charon", "Charon (Male)", Male),
    Voice("Aoede", "Aoede (Female)", Female)
  ]

  /** Which screen is shown: the bookshelf, the upload spinner, the reader or the error page. */
  datatype AppState = Idle | Extracting | Reader | Error

  /** One paragraph of a book: `id` is meant to be its position in the book's chunk list. */
  datatype Chunk = Chunk(id: int, text: string, page: int)

  /** A book of the library; ids are strings made from the upload time. */
  datatype Book = Book(
    id: string,
    title: string,
    chunks: seq<Chunk>,
    totalChunks: int,
    lastReadChunkIndex: int,
    dateAdded: int,
    lastReadDate: int,
    totalPages: int)

  /** The text of one PDF page, as the extractor returns it (PageContent). */
  datatype Page = Page(page: int, text: string)
}
