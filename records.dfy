/**
 * Book records and their four-field row form: the decoding loop that every
 * handler runs over the rows of books.csv, and the encoding loop that writes
 * them back. The CSV quoting itself belongs to encoding/csv and is not modelled:
 * a row is the sequence of its fields.
 */
module Records {
  import opened Wrappers
  import opened Strconv

  datatype Book = Book(id: int, name: string, author: string, year: int)

  type Row = seq<string>

  /** Which integer field of a row failed to parse. */
  datatype Field = IdField | YearField

  /** Why the rows could not be loaded; `line` is the 1-based row number. */
  datatype ParseError =
    | WrongFieldCount(line: nat)
    | BadInteger(line: nat, field: Field)
  {
    function Line(): nat {
      match this
      case WrongFieldCount(l) => l
      case BadInteger(l, _) => l
    }
  }

  /** One row decoded as row number `line`: the field count is checked first, then Year, then Id. */
  function DecodeRow(row: Row, line: nat): (r: Result<Book, ParseError>)
    ensures r.Err? ==> r.error.Line() == line
    ensures |row| != 4 ==> r == Err(WrongFieldCount(line))
    ensures |row| == 4 && Atoi(row[3]).None? ==> r == Err(BadInteger(line, YearField))
    ensures |row| == 4 && Atoi(row[3]).Some? && Atoi(row[0]).None? ==> r == Err(BadInteger(line, IdField))
    ensures r.Ok? <==> |row| == 4 && Atoi(row[0]).Some? && Atoi(row[3]).Some?
    ensures r.Ok? ==> r.value == Book(Atoi(row[0]).value, row[1], row[2], Atoi(row[3]).value)
  {
    if |row| != 4 then Err(WrongFieldCount(line))
    else match Atoi(row[3])
      case None => Err(BadInteger(line, YearField))
      case Some(year) =>
        match Atoi(row[0])
        case None => Err(BadInteger(line, IdField))
        case Some(id) => Ok(Book(id, row[1], row[2], year))
  }

  /** All rows decoded in order; the first row that fails decides the error. */
  function DecodeRows(rows: seq<Row>): (r: Result<seq<Book>, ParseError>)
    ensures r.Ok? ==> |r.value| == |rows|
    ensures r.Err? ==> 1 <= r.error.Line() <= |rows|
  {
    if |rows| == 0 then Ok([])
    else match DecodeRows(rows[..|rows| - 1])
      case Err(e) => Err(e)
      case Ok(books) =>
        match DecodeRow(rows[|rows| - 1], |rows|)
        case Err(e) => Err(e)
        case Ok(b) => Ok(books + [b])
  }

  /** The loop at the head of every handler: rows become books, one per row, in order. */
  method LoadBooks(rows: seq<Row>) returns (r: Result<seq<Book>, ParseError>)
    ensures r == DecodeRows(rows)
  {
    var books: seq<Book> := [];
    for i := 0 to |rows|
      invariant DecodeRows(rows[..i]) == Ok(books)
    {
      assert rows[..i + 1][..i] == rows[..i];
      var decoded := DecodeRow(rows[i], i + 1);
      if decoded.Err? {
        DecodeRowsErrorSticks(rows, i + 1, decoded.error);
        return Err(decoded.error);
      }
      books := books + [decoded.value];
    }
    assert rows[..|rows|] == rows;
    r := Ok(books);
  }

  /** Once a prefix fails to decode, the whole sequence fails with the same error. */
  lemma {:induction false} DecodeRowsErrorSticks(rows: seq<Row>, k: nat, e: ParseError)
    requires k <= |rows|
    requires DecodeRows(rows[..k]) == Err(e)
    ensures DecodeRows(rows) == Err(e)
    decreases |rows| - k
  {
    if k < |rows| {
      assert rows[..k + 1][..k] == rows[..k];
      DecodeRowsErrorSticks(rows, k + 1, e);
    } else {
      assert rows[..k] == rows;
    }
  }

  /**
   * Decoding succeeds exactly when every row decodes, and then the store has one
   * book per row, in row order.
   */
  lemma {:induction false} DecodeRowsOk(rows: seq<Row>)
    ensures DecodeRows(rows).Ok? <==> forall i :: 0 <= i < |rows| ==> DecodeRow(rows[i], i + 1).Ok?
    ensures DecodeRows(rows).Ok? ==>
              |DecodeRows(rows).value| == |rows| &&
              forall i :: 0 <= i < |rows| ==> DecodeRows(rows).value[i] == DecodeRow(rows[i], i + 1).value
  {
    if |rows| > 0 {
      var init := rows[..|rows| - 1];
      DecodeRowsOk(init);
      assert forall i :: 0 <= i < |init| ==> init[i] == rows[i];
    }
  }

  /** The error reported is that of the first row that does not decode. */
  lemma {:induction false} DecodeRowsFirstError(rows: seq<Row>, k: nat)
    requires k < |rows|
    requires forall i :: 0 <= i < k ==> DecodeRow(rows[i], i + 1).Ok?
    requires DecodeRow(rows[k], k + 1).Err?
    ensures DecodeRows(rows) == Err(DecodeRow(rows[k], k + 1).error)
  {
    var prefix := rows[..k];
    assert forall i :: 0 <= i < k ==> prefix[i] == rows[i];
    DecodeRowsOk(prefix);
    assert rows[..k + 1][..k] == prefix;
    DecodeRowsErrorSticks(rows, k + 1, DecodeRow(rows[k], k + 1).error);
  }

  /** A row whose Year and Id are both malformed reports the Year. */
  lemma YearCheckedBeforeId(row: Row, line: nat)
    requires |row| == 4 && Atoi(row[3]).None?
    ensures DecodeRow(row, line) == Err(BadInteger(line, YearField))
  {
  }

  /** The row written for one book: Id, Name, Author, Year, integers in decimal. */
  function EncodeRow(b: Book): (row: Row)
    ensures |row| == 4 && row[1] == b.name && row[2] == b.author
  {
    [Itoa(b.id), b.name, b.author, Itoa(b.year)]
  }

  /** `rows` are the rows written for `books`: one canonical row per book, in store order. */
  predicate Encodes(rows: seq<Row>, books: seq<Book>) {
    |rows| == |books| && forall i :: 0 <= i < |books| ==> rows[i] == EncodeRow(books[i])
  }

  /** Reading back a written row gives the same book, whatever line it is on. */
  lemma DecodeEncodeRow(b: Book, line: nat)
    ensures DecodeRow(EncodeRow(b), line) == Ok(b)
  {
    AtoiItoa(b.id);
    AtoiItoa(b.year);
  }

  /** Rows holding the encoding of each book, in order, decode to exactly those books. */
  lemma {:induction false} DecodeEncodedRows(books: seq<Book>, rows: seq<Row>)
    requires Encodes(rows, books)
    ensures DecodeRows(rows) == Ok(books)
  {
    if |books| > 0 {
      var n := |books| - 1;
      DecodeEncodedRows(books[..n], rows[..n]);
      DecodeEncodeRow(books[n], |rows|);
      assert books[..n] + [books[n]] == books;
    }
  }

  /** The writing loop of the create, update and delete handlers: one row per book, in store order. */
  method SaveBooks(books: seq<Book>) returns (rows: seq<Row>)
    ensures Encodes(rows, books)
    ensures DecodeRows(rows) == Ok(books)
  {
    rows := [];
    for i := 0 to |books|
      invariant |rows| == i
      invariant forall j :: 0 <= j < i ==> rows[j] == EncodeRow(books[j])
    {
      rows := rows + [EncodeRow(books[i])];
    }
    DecodeEncodedRows(books, rows);
  }

  /** Saving what was loaded from saved rows writes the same rows again. */
  lemma SaveLoadSave(books: seq<Book>, rows: seq<Row>, rows': seq<Row>)
    requires Encodes(rows, books)
    requires DecodeRows(rows).Ok? && Encodes(rows', DecodeRows(rows).value)
    ensures rows' == rows
  {
    DecodeEncodedRows(books, rows);
  }
}
