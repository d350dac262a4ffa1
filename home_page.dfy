/** The home page: the cached books sorted by title in a table whose
    availability column and borrow button follow the copy count, with the same
    add/edit dialog and delete button as the books page. */
module HomePage {
  import opened Types
  import opened Effects
  import opened BookList
  import opened BookForm
  import opened Mutations
  import BorrowBookForm

  const DeleteQuestion := "Delete this book?"

  /** The availability column: derived from the copy count alone. */
  function AvailabilityLabel(b: Book): (s: string)
    ensures s == "Available" <==> b.copies > 0
    ensures s == "Unavailable" <==> b.copies <= 0
  {
    if b.copies > 0 then "Available" else "Unavailable"
  }

  /** The stored `available` flag plays no part in the label. */
  lemma LabelIgnoresStoredFlag(b: Book, flag: bool)
    ensures AvailabilityLabel(b.(available := flag)) == AvailabilityLabel(b)
  {
  }

  /** The borrow dialog of a row: offered only when the book has copies, with
      the book's copy count as the largest quantity. */
  function BorrowOffer(b: Book): (o: Option<BorrowBookForm.Props>)
    ensures o.Some? <==> b.copies > 0
    ensures o.Some? ==> o.value.bookId == b.id && o.value.maxQuantity == b.copies
  {
    if b.copies > 0 then Some(BorrowBookForm.Props(b.id, b.copies)) else None
  }

  /** An offered dialog accepts its initial quantity of one. */
  lemma OfferedDialogAcceptsOne(b: Book)
    requires BorrowOffer(b).Some?
    ensures BorrowBookForm.QuantityInRange(1, BorrowOffer(b).value.maxQuantity)
  {
  }

  /** `Array.prototype.sort` on an array, as the stable sort `SortBooks`. */
  method SortInPlace(a: array<Book>, key: SortKey, cmp: (string, string) -> int)
    modifies a
    ensures a[..] == SortBooks(old(a[..]), key, cmp)
  {
    var sorted := SortBooks(a[..], key, cmp);
    forall i | 0 <= i < a.Length {
      a[i] := sorted[i];
    }
    assert a[..] == sorted;
  }

  /** The home page's list holds exactly the cached books, each as often as
      it occurs (nothing is filtered), ordered by title. */
  lemma SortedByTitle(books: seq<Book>, cmp: (string, string) -> int)
    ensures multiset(SortBooks(books, Title, cmp)) == multiset(books)
    ensures Total(cmp) ==> forall i :: 0 <= i < |books| - 1 ==>
      cmp(SortBooks(books, Title, cmp)[i].title, SortBooks(books, Title, cmp)[i + 1].title) <= 0
  {
    SortedMeaning(SortBooks(books, Title, cmp), Title, cmp);
  }

  class HomePage {
    /** The array the books query cached; the page does not own it. */
    const cache: array<Book>
    var sortedBooks: seq<Book>
    /** A sort state without a setter. */
    const sortBy: SortKey
    var editBook: Option<Book>
    var openDialog: bool
    var borrowBookId: Option<string>
    /** The collation behind `localeCompare`. */
    const cmp: (string, string) -> int

    constructor (cache: array<Book>, cmp: (string, string) -> int)
      ensures this.cache == cache && this.cmp == cmp && sortBy == Title
      ensures sortedBooks == [] && editBook == None && !openDialog && borrowBookId == None
    {
      this.cache := cache;
      this.cmp := cmp;
      sortBy := Title;
      sortedBooks := [];
      editBook := None;
      openDialog := false;
      borrowBookId := None;
    }

    /** The effect on new books: copy the cached array, sort the copy, store it.
        The cached array itself keeps its order. */
    method SortEffect()
      modifies this
      ensures sortedBooks == SortBooks(cache[..], sortBy, cmp)
      ensures cache[..] == old(cache[..])
      ensures editBook == old(editBook) && openDialog == old(openDialog) && borrowBookId == old(borrowBookId)
    {
      var result := new Book[cache.Length](i requires 0 <= i < cache.Length reads cache => cache[i]);
      assert result[..] == cache[..];
      SortInPlace(result, sortBy, cmp);
      sortedBooks := result[..];
    }

    /** `handleCreate`, as on the books page. */
    method HandleCreate(v: BookFormValues, gw: Outcome) returns (r: Envelope, effects: seq<Effect>)
      modifies v
      ensures v.Data() == AvailabilityRule(old(v.Data()))
      ensures effects == [Request(AddBook(v.Data()))]
      ensures old(v.copies) == 0 ==> v.available == Some(false)
      ensures r == CreateResult(gw)
    {
      v.ApplyAvailabilityRule();
      effects := [Request(AddBook(v.Data()))];
      r := CreateResult(gw);
    }

    /** `handleUpdate`, as on the books page. */
    method HandleUpdate(v: BookFormValues, gw: Outcome) returns (r: Envelope, effects: seq<Effect>)
      modifies v
      ensures editBook.None? ==> r == NoBookSelected && effects == [] && v.Data() == old(v.Data())
      ensures editBook.Some? ==> v.Data() == AvailabilityRule(old(v.Data()))
      ensures editBook.Some? ==> effects == [Request(UpdateBook(editBook.value.id, v.Data()))]
      ensures editBook.Some? ==> r == UpdateResult(gw)
    {
      if editBook.None? {
        return NoBookSelected, [];
      }
      v.ApplyAvailabilityRule();
      effects := [Request(UpdateBook(editBook.value.id, v.Data()))];
      r := UpdateResult(gw);
    }

    /** `handleDelete`, as on the books page. */
    method HandleDelete(id: string, confirmed: bool, gw: Outcome) returns (effects: seq<Effect>, settled: Settled)
      ensures confirmed ==> effects == [Confirm(DeleteQuestion), Request(DeleteBook(id))]
      ensures !confirmed ==> effects == [Confirm(DeleteQuestion)] && settled == Resolved
      ensures HasRequest(effects) <==> confirmed
      ensures settled == Rejected <==> confirmed && gw.Err?
    {
      effects := [Confirm(DeleteQuestion)];
      settled := Resolved;
      if confirmed {
        effects := effects + [Request(DeleteBook(id))];
        if gw.Err? {
          settled := Rejected;
        }
      }
      assert confirmed ==> effects[1].Request?;
      assert !confirmed ==> forall i | 0 <= i < |effects| :: effects[i] == Confirm(DeleteQuestion);
    }

    /** `handleEditClick`: select the book and open the dialog. */
    method HandleEditClick(book: Book)
      modifies this
      ensures editBook == Some(book) && openDialog
      ensures sortedBooks == old(sortedBooks) && borrowBookId == old(borrowBookId)
    {
      editBook := Some(book);
      openDialog := true;
    }

    /** Submitting the dialog's book form, bound as on the books page. */
    method SubmitForm(form: BookForm, gw: Outcome) returns (effects: seq<Effect>)
      ensures !RequiredFilled(form.fields) ==> effects == []
      ensures RequiredFilled(form.fields) && editBook.None? ==>
        effects == [Request(AddBook(AvailabilityRule(form.fields))), Toast(NoticeFor(Returned(CreateResult(gw))))]
      ensures RequiredFilled(form.fields) && editBook.Some? ==>
        effects == [Request(UpdateBook(editBook.value.id, AvailabilityRule(form.fields))),
                    Toast(NoticeFor(Returned(UpdateResult(gw))))]
    {
      if !RequiredFilled(form.fields) {
        return [];
      }
      var values := new BookFormValues(form.fields);
      values.ApplyAvailabilityRule();
      AvailabilityRuleIdempotent(form.fields);
      var res: Envelope, sent: seq<Effect>;
      if editBook.Some? {
        res, sent := HandleUpdate(values, gw);
      } else {
        res, sent := HandleCreate(values, gw);
      }
      effects := sent + [Toast(NoticeFor(Returned(res)))];
    }
  }
}
