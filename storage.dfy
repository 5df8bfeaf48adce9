/**
 * The library store: the list of saved books kept under one key of the browser's
 * local storage. The list operations (filter by id, prepend, update by id) are
 * functions on sequences; the store itself is a class whose one slot every
 * writer overwrites.
 */
module Storage {
  import opened Wrappers
  import opened Types

  /**
   * What the storage key holds: nothing (or the empty string), a list of books, or
   * text that JSON.parse rejects. Serialisation itself is abstracted away.
   */
  datatype Slot = Missing | Stored(books: seq<Book>) | Unparsable

  /** `books.filter(b => b.id !== id)`. */
  function WithoutId(books: seq<Book>, id: string): (r: seq<Book>)
    ensures |r| <= |books|
    ensures forall b :: b in r <==> b in books && b.id != id
  {
    if books == [] then []
    else (if books[0].id != id then [books[0]] else []) + WithoutId(books[1..], id)
  }

  /** Filtering distributes over concatenation: the books that remain keep their relative order. */
  lemma {:induction false} WithoutIdAppend(a: seq<Book>, b: seq<Book>, id: string)
    ensures WithoutId(a + b, id) == WithoutId(a, id) + WithoutId(b, id)
  {
    if a == [] {
      assert a + b == b;
    } else {
      assert (a + b)[1..] == a[1..] + b;
      WithoutIdAppend(a[1..], b, id);
    }
  }

  /** Removing an id that no book carries leaves the list as it was. */
  lemma {:induction false} WithoutIdAbsent(books: seq<Book>, id: string)
    requires forall i :: 0 <= i < |books| ==> books[i].id != id
    ensures WithoutId(books, id) == books
  {
    if books != [] {
      WithoutIdAbsent(books[1..], id);
    }
  }

  /** After removal no book carries the id, so removing it again changes nothing. */
  lemma WithoutIdIdempotent(books: seq<Book>, id: string)
    ensures WithoutId(WithoutId(books, id), id) == WithoutId(books, id)
  {
    var r := WithoutId(books, id);
    assert forall i :: 0 <= i < |r| ==> r[i] in r;
    WithoutIdAbsent(r, id);
  }

  /** The list saveBook writes: the book first, then the old list without any book of that id. */
  function Saved(books: seq<Book>, book: Book): seq<Book> {
    [book] + WithoutId(books, book.id)
  }

  /**
   * After a save the book is first, it is the only entry with its id, and every other
   * book of the old list is still there.
   */
  lemma SavedShape(books: seq<Book>, book: Book)
    ensures |Saved(books, book)| >= 1 && Saved(books, book)[0] == book
    ensures forall i :: 0 < i < |Saved(books, book)| ==> Saved(books, book)[i].id != book.id
    ensures forall b :: b in books && b.id != book.id ==> b in Saved(books, book)
    ensures forall b :: b in Saved(books, book) ==> b == book || b in books
  {
    var r := Saved(books, book);
    forall i | 0 < i < |r| ensures r[i].id != book.id {
      assert r[i] in WithoutId(books, book.id);
    }
  }

  /** `books.findIndex(b => b.id === id)`: the first position holding the id. */
  function FindIndex(books: seq<Book>, id: string): (r: Option<nat>)
    ensures r.Some? ==> r.value < |books| && books[r.value].id == id
    ensures r.Some? ==> forall j :: 0 <= j < r.value ==> books[j].id != id
    ensures r.None? <==> forall j :: 0 <= j < |books| ==> books[j].id != id
  {
    if books == [] then None
    else if books[0].id == id then Some(0)
    else match FindIndex(books[1..], id) {
      case None => None
      case Some(k) => Some(k + 1)
    }
  }

  /** The list after `books[i].lastReadChunkIndex = k; books[i].lastReadDate = now`. */
  function SetProgress(books: seq<Book>, i: nat, k: int, now: int): (r: seq<Book>)
    requires i < |books|
    ensures |r| == |books|
    ensures r[i].lastReadChunkIndex == k && r[i].lastReadDate == now
    ensures r[i] == books[i].(lastReadChunkIndex := k, lastReadDate := now)
    ensures forall j :: 0 <= j < |books| && j != i ==> r[j] == books[j]
  {
    books[i := books[i].(lastReadChunkIndex := k, lastReadDate := now)]
  }

  /**
   * The list updateBookProgress writes when the id is present: the first book of that id
   * has the new position and date, every other entry is as it was.
   */
  lemma ProgressUpdated(books: seq<Book>, id: string, k: int, now: int)
    requires FindIndex(books, id).Some?
    ensures var r := SetProgress(books, FindIndex(books, id).value, k, now);
      |r| == |books|
      && (exists i :: 0 <= i < |r| && r[i].id == id && r[i].lastReadChunkIndex == k)
      && forall j :: 0 <= j < |books| && books[j].id != id ==> r[j] == books[j]
  {
    var i := FindIndex(books, id).value;
    var r := SetProgress(books, i, k, now);
    assert r[i].id == id && r[i].lastReadChunkIndex == k;
  }

  class BookStore {
    /** The content of the storage key. */
    var slot: Slot
    /** Whether `setItem` throws (the storage quota is exhausted). */
    var full: bool

    constructor (initial: Slot, isFull: bool)
      ensures slot == initial && full == isFull
    {
      slot := initial;
      full := isFull;
    }

    /** getBooks(): the stored list, or the empty list when nothing is stored or it does not parse. */
    function GetBooks(): (books: seq<Book>)
      reads this
      ensures slot.Stored? ==> books == slot.books
      ensures !slot.Stored? ==> books == []
    {
      match slot {
        case Stored(books) => books
        case _ => []
      }
    }

    /**
     * saveBook(): writes the book in front of the old list without its id. A failed write
     * is caught and reported; the store is then unchanged.
     */
    method SaveBook(book: Book)
      modifies this
      ensures full == old(full)
      ensures !full ==> slot == Stored(Saved(old(GetBooks()), book))
      ensures full ==> slot == old(slot)
    {
      var books := GetBooks();
      var updated := Saved(books, book);
      if !full {
        slot := Stored(updated);
      }
    }

    /**
     * updateBookProgress(): sets the position and date of the book with that id and writes
     * the list back; an unknown id writes nothing. `threw` is true where setItem throws, an
     * exception this function does not catch; the store is then unchanged.
     */
    method UpdateBookProgress(id: string, chunkIndex: int, now: int) returns (threw: bool)
      modifies this
      ensures full == old(full)
      ensures threw <==> FindIndex(old(GetBooks()), id).Some? && full
      ensures FindIndex(old(GetBooks()), id).None? || full ==> slot == old(slot)
      ensures FindIndex(old(GetBooks()), id).Some? && !full ==>
        slot == Stored(SetProgress(old(GetBooks()), FindIndex(old(GetBooks()), id).value, chunkIndex, now))
    {
      var books := GetBooks();
      var bookIndex := FindIndex(books, id);
      threw := false;
      if bookIndex.Some? {
        books := SetProgress(books, bookIndex.value, chunkIndex, now);
        if full {
          return true;
        }
        slot := Stored(books);
      }
    }

    /**
     * deleteBook(): writes and returns the old list without every book of that id. The
     * result is None where setItem throws; the exception reaches the caller.
     */
    method DeleteBook(id: string) returns (updated: Option<seq<Book>>)
      modifies this
      ensures full == old(full)
      ensures full ==> updated == None && slot == old(slot)
      ensures !full ==> updated == Some(WithoutId(old(GetBooks()), id)) && slot == Stored(updated.value)
    {
      var books := GetBooks();
      var remaining := WithoutId(books, id);
      if full {
        return None;
      }
      slot := Stored(remaining);
      updated := Some(remaining);
    }
  }
}
