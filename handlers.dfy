/**
 * What each route does to the rows of books.csv, with the HTTP request reduced
 * to its parameters and the file reduced to its rows: load, one store
 * operation, and (for the changing routes) the rows written back. Every failure
 * that ends the process in the source is an error result here.
 */
module Handlers {
  import opened Wrappers
  import opened Strconv
  import opened Records
  import opened Store

  datatype Error =
    | Parse(cause: ParseError)  // books.csv holds a malformed row
    | BadIdParam                // the {Id} path variable is not an integer
    | BadYearParam              // the Year form value is not an integer

  /** The result of a lookup of the first book with the Id. */
  function Lookup(books: seq<Book>, id: int): Option<Book> {
    match FirstIndexOf(books, id)
    case None => None
    case Some(k) => Some(books[k])
  }

  /** /books/{Id}/: the first book with the Id, or not found. */
  method BookInfo(rows: seq<Row>, idText: string) returns (r: Result<Option<Book>, Error>)
    ensures Atoi(idText).None? ==> r == Err(BadIdParam)
    ensures Atoi(idText).Some? && DecodeRows(rows).Err? ==> r == Err(Parse(DecodeRows(rows).error))
    ensures Atoi(idText).Some? && DecodeRows(rows).Ok? ==>
              r == Ok(Lookup(DecodeRows(rows).value, Atoi(idText).value))
  {
    var id := Atoi(idText);
    if id.None? {
      return Err(BadIdParam);
    }
    var loaded := LoadBooks(rows);
    if loaded.Err? {
      return Err(Parse(loaded.error));
    }
    var found := FindById(loaded.value, id.value);
    ghost var books := loaded.value;
    if found.Some? {
      ghost var k :| 0 <= k < |books| && books[k] == found.value && found.value.id == id.value &&
               forall j :: 0 <= j < k ==> books[j].id != id.value;
      assert FirstIndexOf(books, id.value) == Some(k);
    }
    r := Ok(found);
  }

  /**
   * /books/create/: the rows written back decode to the old store with one book
   * appended, whose Id is the next Id.
   */
  method CreateBook(rows: seq<Row>, name: string, author: string, yearText: string)
    returns (r: Result<seq<Row>, Error>)
    ensures DecodeRows(rows).Err? ==> r == Err(Parse(DecodeRows(rows).error))
    ensures DecodeRows(rows).Ok? && Atoi(yearText).None? ==> r == Err(BadYearParam)
    ensures DecodeRows(rows).Ok? && Atoi(yearText).Some? ==>
              var created := DecodeRows(rows).value +
                             [Book(NextId(DecodeRows(rows).value), name, author, Atoi(yearText).value)];
              r.Ok? && Encodes(r.value, created) && DecodeRows(r.value) == Ok(created)
  {
    var loaded := LoadBooks(rows);
    if loaded.Err? {
      return Err(Parse(loaded.error));
    }
    var appended := Append(loaded.value, name, author, yearText);
    if appended.None? {
      return Err(BadYearParam);
    }
    assert appended.value == appended.value[..|loaded.value|] + [appended.value[|loaded.value|]];
    var written := SaveBooks(appended.value);
    r := Ok(written);
  }

  /**
   * /books/update/{Id}: every book with the Id gets the new Name, Author and
   * Year. The Year text is parsed only when some book matches; with no match
   * the store is written back unchanged.
   */
  method UpdateBook(rows: seq<Row>, idText: string, name: string, author: string, yearText: string)
    returns (r: Result<seq<Row>, Error>)
    ensures Atoi(idText).None? ==> r == Err(BadIdParam)
    ensures Atoi(idText).Some? && DecodeRows(rows).Err? ==> r == Err(Parse(DecodeRows(rows).error))
    ensures Atoi(idText).Some? && DecodeRows(rows).Ok? && FirstIndexOf(DecodeRows(rows).value, Atoi(idText).value).None? ==>
              r.Ok? && Encodes(r.value, DecodeRows(rows).value) && DecodeRows(r.value) == DecodeRows(rows)
    ensures Atoi(idText).Some? && DecodeRows(rows).Ok? && FirstIndexOf(DecodeRows(rows).value, Atoi(idText).value).Some? ==>
              if Atoi(yearText).None? then r == Err(BadYearParam)
              else
                var id := Atoi(idText).value;
                var updated := Overwrite(DecodeRows(rows).value, id, Book(id, name, author, Atoi(yearText).value));
                r.Ok? && Encodes(r.value, updated) && DecodeRows(r.value) == Ok(updated)
  {
    var id := Atoi(idText);
    if id.None? {
      return Err(BadIdParam);
    }
    var loaded := LoadBooks(rows);
    if loaded.Err? {
      return Err(Parse(loaded.error));
    }
    var books := loaded.value;
    var a := new Book[|books|](i requires 0 <= i < |books| => books[i]);
    assert a[..] == books;
    var ok := UpdateInPlace(a, id.value, name, author, yearText);
    if !ok {
      return Err(BadYearParam);
    }
    if Atoi(yearText).Some? && FirstIndexOf(books, id.value).None? {
      OverwriteNoMatch(books, id.value, Book(id.value, name, author, Atoi(yearText).value));
    }
    var written := SaveBooks(a[..]);
    r := Ok(written);
  }

  /**
   * /books/delete/{Id}: the rows written back decode to the store without its
   * first book with the Id. This uses the corrected loop, which stops after the
   * first splice; the source's loop gives the same store whenever at most one
   * book has the Id (Store.DeleteWhileRangingRemovesFirst).
   */
  method DeleteBook(rows: seq<Row>, idText: string) returns (r: Result<seq<Row>, Error>)
    ensures Atoi(idText).None? ==> r == Err(BadIdParam)
    ensures Atoi(idText).Some? && DecodeRows(rows).Err? ==> r == Err(Parse(DecodeRows(rows).error))
    ensures Atoi(idText).Some? && DecodeRows(rows).Ok? ==>
              var removed := RemoveFirst(DecodeRows(rows).value, Atoi(idText).value);
              r.Ok? && Encodes(r.value, removed) && DecodeRows(r.value) == Ok(removed)
  {
    var id := Atoi(idText);
    if id.None? {
      return Err(BadIdParam);
    }
    var loaded := LoadBooks(rows);
    if loaded.Err? {
      return Err(Parse(loaded.error));
    }
    var books := loaded.value;
    var a := new Book[|books|](i requires 0 <= i < |books| => books[i]);
    assert a[..] == books;
    var len := DeleteFirst(a, id.value);
    var written := SaveBooks(a[..len]);
    r := Ok(written);
  }
}
