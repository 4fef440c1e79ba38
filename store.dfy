/**
 * The operations the handlers perform on the loaded books: lookup by Id, the
 * next Id, append, the in-place overwrite of every matching record, and the
 * delete loop that splices the slice while ranging over it.
 *
 * A Go slice that is changed in place is an `array<Book>`: for the delete loop
 * the array is the slice's backing array and a separate length is the slice's
 * current length.
 */
module Store {
  import opened Wrappers
  import opened Strconv
  import opened Records

  /** No two books share an Id. The source never checks this on load. */
  predicate UniqueIds(books: seq<Book>) {
    forall j, k :: 0 <= j < |books| && 0 <= k < |books| && books[j].id == books[k].id ==> j == k
  }

  /** At most one book has the Id `id`. */
  predicate AtMostOneMatch(books: seq<Book>, id: int) {
    forall j, k :: 0 <= j < |books| && 0 <= k < |books| && books[j].id == id && books[k].id == id ==> j == k
  }

  lemma UniqueIdsAtMostOneMatch(books: seq<Book>, id: int)
    requires UniqueIds(books)
    ensures AtMostOneMatch(books, id)
  {
  }

  /** The lowest index holding the Id, if any. */
  function FirstIndexOf(books: seq<Book>, id: int): (r: Option<nat>)
    ensures r.None? <==> forall i :: 0 <= i < |books| ==> books[i].id != id
    ensures r.Some? ==> r.value < |books| && books[r.value].id == id &&
                        forall j :: 0 <= j < r.value ==> books[j].id != id
  {
    if |books| == 0 then None
    else if books[0].id == id then Some(0)
    else match FirstIndexOf(books[1..], id)
      case None => None
      case Some(k) => Some(k + 1)
  }

  // ---------------------------------------------------------------- find

  /** The scan of the book-info handler: the first book with the Id, or not found. */
  method FindById(books: seq<Book>, id: int) returns (r: Option<Book>)
    ensures r.None? <==> forall i :: 0 <= i < |books| ==> books[i].id != id
    ensures r.Some? ==> exists k :: 0 <= k < |books| && books[k] == r.value && r.value.id == id &&
                                    forall j :: 0 <= j < k ==> books[j].id != id
  {
    var book := Book(0, "", "", 0);
    var found := false;
    for i := 0 to |books|
      invariant !found
      invariant forall j :: 0 <= j < i ==> books[j].id != id
    {
      if books[i].id == id {
        book := books[i];
        found := true;
        break;
      }
    }
    r := if found then Some(book) else None;
  }

  // ---------------------------------------------------------------- next id

  /** The largest Id, or 0 when every Id is below 0 or the store is empty. */
  function MaxId(books: seq<Book>): (m: int)
    ensures m >= 0
    ensures forall i :: 0 <= i < |books| ==> books[i].id <= m
    ensures m == 0 || exists i :: 0 <= i < |books| && books[i].id == m
  {
    if |books| == 0 then 0
    else
      var m := MaxId(books[..|books| - 1]);
      if books[|books| - 1].id > m then books[|books| - 1].id else m
  }

  /** The loop of the create handler that computes maxId, starting from 0. */
  method ComputeMaxId(books: seq<Book>) returns (maxId: int)
    ensures maxId == MaxId(books)
  {
    maxId := 0;
    for i := 0 to |books|
      invariant maxId == MaxId(books[..i])
    {
      assert books[..i + 1][..i] == books[..i];
      if books[i].id > maxId {
        maxId := books[i].id;
      }
    }
    assert books[..|books|] == books;
  }

  /** The Id given to a created book: at least 1, above every existing Id, 1 for an empty store. */
  function NextId(books: seq<Book>): (n: int)
    ensures n >= 1
    ensures forall i :: 0 <= i < |books| ==> books[i].id < n
    ensures |books| == 0 ==> n == 1
  {
    MaxId(books) + 1
  }

  lemma NextIdExample()
    ensures NextId([Book(1, "A", "X", 1990), Book(5, "B", "Y", 2000)]) == 6
  {
    var books := [Book(1, "A", "X", 1990), Book(5, "B", "Y", 2000)];
    assert books[..1] == [books[0]];
  }

  // ---------------------------------------------------------------- create

  /**
   * The create handler's store step: compute maxId, parse the Year text, append
   * a book with Id maxId + 1 at the end. A Year that is not an integer fails.
   */
  method Append(books: seq<Book>, name: string, author: string, yearText: string)
    returns (r: Option<seq<Book>>)
    ensures r.None? <==> Atoi(yearText).None?
    ensures r.Some? ==> |r.value| == |books| + 1 && r.value[..|books|] == books
    ensures r.Some? ==> r.value[|books|] == Book(NextId(books), name, author, Atoi(yearText).value)
    ensures r.Some? ==> forall i :: 0 <= i < |books| ==> books[i].id != r.value[|books|].id
  {
    var maxId := ComputeMaxId(books);
    var year := Atoi(yearText);
    if year.None? {
      return None;
    }
    r := Some(books + [Book(maxId + 1, name, author, year.value)]);
  }

  /** Appending a book with the next Id keeps the Ids unique. */
  lemma AppendKeepsIdsUnique(books: seq<Book>, b: Book)
    requires UniqueIds(books) && b.id == NextId(books)
    ensures UniqueIds(books + [b])
  {
  }

  // ---------------------------------------------------------------- update

  /** The store with every book whose Id is `id` replaced by `b`. */
  function Overwrite(books: seq<Book>, id: int, b: Book): (r: seq<Book>)
    ensures |r| == |books|
    ensures forall k :: 0 <= k < |books| ==> r[k] == if books[k].id == id then b else books[k]
  {
    if |books| == 0 then []
    else
      var last := books[|books| - 1];
      Overwrite(books[..|books| - 1], id, b) + [if last.id == id then b else last]
  }

  /** With no matching Id, overwriting changes nothing. */
  lemma OverwriteNoMatch(books: seq<Book>, id: int, b: Book)
    requires forall i :: 0 <= i < |books| ==> books[i].id != id
    ensures Overwrite(books, id, b) == books
  {
  }

  /** Overwriting with a book that keeps the Id keeps the Ids unique. */
  lemma OverwriteKeepsIdsUnique(books: seq<Book>, id: int, b: Book)
    requires UniqueIds(books) && b.id == id
    ensures UniqueIds(Overwrite(books, id, b))
  {
  }

  /**
   * The update handler's loop: every index whose Id matches is overwritten in
   * place with {id, name, author, Atoi(yearText)}. The Year text is parsed only
   * at a match; if it is not an integer the request fails at the first match,
   * before anything was overwritten.
   */
  method UpdateInPlace(a: array<Book>, id: int, name: string, author: string, yearText: string)
    returns (ok: bool)
    modifies a
    ensures Atoi(yearText).Some? ==>
              ok && a[..] == Overwrite(old(a[..]), id, Book(id, name, author, Atoi(yearText).value))
    ensures Atoi(yearText).None? ==>
              a[..] == old(a[..]) && (ok <==> forall i :: 0 <= i < a.Length ==> old(a[i]).id != id)
  {
    for i := 0 to a.Length
      invariant forall k :: i <= k < a.Length ==> a[k] == old(a[k])
      invariant forall k :: 0 <= k < i ==>
                  if old(a[k]).id == id
                  then Atoi(yearText).Some? && a[k] == Book(id, name, author, Atoi(yearText).value)
                  else a[k] == old(a[k])
    {
      if a[i].id == id {
        var year := Atoi(yearText);
        if year.None? {
          return false;
        }
        a[i] := Book(id, name, author, year.value);
      }
    }
    ok := true;
  }

  // ---------------------------------------------------------------- delete

  /** The removal the delete handler is meant to perform: the first book with the Id goes, the rest keep their order. */
  function RemoveFirst(books: seq<Book>, id: int): (r: seq<Book>)
    ensures FirstIndexOf(books, id).None? ==> r == books
    ensures FirstIndexOf(books, id).Some? ==>
              r == books[..FirstIndexOf(books, id).value] + books[FirstIndexOf(books, id).value + 1..]
  {
    if |books| == 0 then []
    else if books[0].id == id then books[1..]
    else
      assert books == [books[0]] + books[1..];
      [books[0]] + RemoveFirst(books[1..], id)
  }

  /** Removing a book keeps the Ids unique. */
  lemma RemoveFirstKeepsIdsUnique(books: seq<Book>, id: int)
    requires UniqueIds(books)
    ensures UniqueIds(RemoveFirst(books, id))
  {
  }

  /**
   * Go's `append(books[:i], books[i+1:]...)` on a slice of length `len`: the
   * elements after i move one place left in the shared backing array, and the
   * element at len - 1 stays where it was.
   */
  function Spliced(s: seq<Book>, len: nat, i: nat): (r: seq<Book>)
    requires i < len <= |s|
    ensures |r| == |s|
  {
    s[..i] + s[i + 1..len] + s[len - 1..]
  }

  method ShiftLeft(a: array<Book>, len: nat, i: nat)
    requires i < len <= a.Length
    modifies a
    ensures a[..] == Spliced(old(a[..]), len, i)
  {
    for j := i to len - 1
      invariant forall k :: 0 <= k < a.Length ==> a[k] == if i <= k < j then old(a[k + 1]) else old(a[k])
    {
      a[j] := a[j + 1];
    }
    ghost var s := old(a[..]);
    forall k | 0 <= k < a.Length
      ensures Spliced(s, len, i)[k] == if i <= k < len - 1 then s[k + 1] else s[k]
    {
      SplicedAt(s, len, i, k);
    }
  }

  lemma SplicedAt(s: seq<Book>, len: nat, i: nat, k: nat)
    requires i < len <= |s| && k < |s|
    ensures Spliced(s, len, i)[k] == if i <= k < len - 1 then s[k + 1] else s[k]
  {
  }

  /**
   * The delete handler's loop from iteration i on: `s` is the backing array the
   * range expression captured (its length is fixed), `len` the slice's current
   * length. A match at i splices the slice; `books[i+1:]` panics when
   * i + 1 > len, which yields None. The result is the final slice.
   */
  function Splice(s: seq<Book>, len: nat, i: nat, id: int): (r: Option<seq<Book>>)
    requires len <= |s| && i <= |s|
    ensures r.Some? ==> |r.value| <= len
    ensures r.Some? && (exists j :: i <= j < |s| && s[j].id == id) ==> |r.value| < len
    ensures (forall j :: i <= j < |s| ==> s[j].id != id) ==> r == Some(s[..len])
    decreases |s| - i
  {
    if i == |s| then Some(s[..len])
    else if s[i].id != id then Splice(s, len, i + 1, id)
    else if i + 1 > len then None
    else Splice(Spliced(s, len, i), len - 1, i + 1, id)
  }

  /** The delete loop as written, from the first iteration, over the whole slice. */
  function SpliceWhileRanging(books: seq<Book>, id: int): (r: Option<seq<Book>>)
    ensures r.Some? ==> |r.value| <= |books|
    ensures r.Some? && (exists j :: 0 <= j < |books| && books[j].id == id) ==> |r.value| < |books|
    ensures (forall j :: 0 <= j < |books| ==> books[j].id != id) ==> r == Some(books)
  {
    assert books[..|books|] == books;
    Splice(books, |books|, 0, id)
  }

  /**
   * The delete handler's loop as written: `for i, b := range books` over the
   * original length, splicing at every match. Returns the final length of the
   * slice, or None for the slice-bounds panic.
   */
  method DeleteWhileRanging(a: array<Book>, id: int) returns (r: Option<nat>)
    modifies a
    ensures r.None? <==> SpliceWhileRanging(old(a[..]), id).None?
    ensures r.Some? ==> r.value <= a.Length && SpliceWhileRanging(old(a[..]), id) == Some(a[..r.value])
  {
    var len: nat := a.Length;
    for i := 0 to a.Length
      invariant len <= a.Length
      invariant Splice(a[..], len, i, id) == SpliceWhileRanging(old(a[..]), id)
    {
      if a[i].id == id {
        if i + 1 > len {
          return None;
        }
        ShiftLeft(a, len, i);
        len := len - 1;
      }
    }
    r := Some(len);
  }

  lemma {:induction false} SpliceSkipsNonMatches(s: seq<Book>, len: nat, i: nat, k: nat, id: int)
    requires len <= |s| && i <= k <= |s|
    requires forall j :: i <= j < k ==> s[j].id != id
    ensures Splice(s, len, i, id) == Splice(s, len, k, id)
    decreases k - i
  {
    if i < k {
      SpliceSkipsNonMatches(s, len, i + 1, k, id);
    }
  }

  /** At the only match k the loop splices once; no later iteration matches. */
  lemma {:induction false} SpliceAtOnlyMatch(books: seq<Book>, k: nat, id: int)
    requires k < |books| && books[k].id == id
    requires forall j :: k < j < |books| ==> books[j].id != id
    ensures Splice(books, |books|, k, id) == Some(books[..k] + books[k + 1..])
  {
    var n := |books|;
    var t := Spliced(books, n, k);
    forall j | k + 1 <= j < n
      ensures t[j].id != id
    {
      SplicedAt(books, n, k, j);
    }
    assert Splice(t, n - 1, k + 1, id) == Some(t[..n - 1]);
    SplicedWholePrefix(books, k);
  }

  /** A splice over the whole slice leaves the slice without its element i. */
  lemma SplicedWholePrefix(s: seq<Book>, i: nat)
    requires i < |s|
    ensures Spliced(s, |s|, i)[..|s| - 1] == s[..i] + s[i + 1..]
  {
    var t := Spliced(s, |s|, i);
    forall j | 0 <= j < |s| - 1
      ensures t[j] == (s[..i] + s[i + 1..])[j]
    {
      SplicedAt(s, |s|, i, j);
    }
  }

  /**
   * When at most one book has the Id, the source's loop removes exactly that
   * book and keeps the order of the rest; with no match the store is unchanged.
   */
  lemma DeleteWhileRangingRemovesFirst(books: seq<Book>, id: int)
    requires AtMostOneMatch(books, id)
    ensures SpliceWhileRanging(books, id) == Some(RemoveFirst(books, id))
  {
    var n := |books|;
    var first := FirstIndexOf(books, id);
    if first.None? {
      assert books[..n] == books;
    } else {
      var k := first.value;
      SpliceSkipsNonMatches(books, n, 0, k, id);
      assert forall j :: k < j < n ==> books[j].id != id;
      SpliceAtOnlyMatch(books, k, id);
    }
  }

  /** On a store with unique Ids, the source's delete loop removes the book with the Id, if any. */
  lemma DeleteWhileRangingUniqueIds(books: seq<Book>, id: int)
    requires UniqueIds(books)
    ensures SpliceWhileRanging(books, id) == Some(RemoveFirst(books, id))
  {
    UniqueIdsAtMostOneMatch(books, id);
    DeleteWhileRangingRemovesFirst(books, id);
  }

  /** Two adjacent books with the Id: the second splice reads past the slice's length and panics. */
  lemma DeleteDuplicateIdPanics()
    ensures SpliceWhileRanging([Book(1, "A", "X", 1), Book(1, "B", "Y", 2)], 1) == None
    ensures RemoveFirst([Book(1, "A", "X", 1), Book(1, "B", "Y", 2)], 1) == [Book(1, "B", "Y", 2)]
  {
  }

  /** Two books with the Id, apart: the loop removes both, not only the first. */
  lemma DeleteDuplicateIdRemovesBoth()
    ensures SpliceWhileRanging([Book(1, "A", "X", 1), Book(2, "B", "Y", 2), Book(1, "C", "Z", 3), Book(3, "D", "W", 4)], 1)
         == Some([Book(2, "B", "Y", 2), Book(3, "D", "W", 4)])
    ensures RemoveFirst([Book(1, "A", "X", 1), Book(2, "B", "Y", 2), Book(1, "C", "Z", 3), Book(3, "D", "W", 4)], 1)
         == [Book(2, "B", "Y", 2), Book(1, "C", "Z", 3), Book(3, "D", "W", 4)]
  {
    var s := [Book(1, "A", "X", 1), Book(2, "B", "Y", 2), Book(1, "C", "Z", 3), Book(3, "D", "W", 4)];
    var t := Spliced(s, 4, 0);
    assert t == [Book(2, "B", "Y", 2), Book(1, "C", "Z", 3), Book(3, "D", "W", 4), Book(3, "D", "W", 4)];
    var u := Spliced(t, 3, 1);
    assert u == [Book(2, "B", "Y", 2), Book(3, "D", "W", 4), Book(3, "D", "W", 4), Book(3, "D", "W", 4)];
    assert u[..2] == [Book(2, "B", "Y", 2), Book(3, "D", "W", 4)];
    assert s[1..] == [Book(2, "B", "Y", 2), Book(1, "C", "Z", 3), Book(3, "D", "W", 4)];
  }

  /** The delete loop with the splice followed by `break`: removes the first book with the Id. */
  method DeleteFirst(a: array<Book>, id: int) returns (len: nat)
    modifies a
    ensures len <= a.Length
    ensures a[..len] == RemoveFirst(old(a[..]), id)
  {
    len := a.Length;
    for i := 0 to a.Length
      invariant len == a.Length && a[..] == old(a[..])
      invariant forall j :: 0 <= j < i ==> a[j].id != id
    {
      if a[i].id == id {
        ShiftLeft(a, len, i);
        len := len - 1;
        SplicedWholePrefix(old(a[..]), i);
        return;
      }
    }
    assert a[..len] == old(a[..]);
  }
}
