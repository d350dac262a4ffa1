/** The book management page: a searchable, sortable table of the cached books,
    an add/edit dialog around the book form, a delete button behind a
    confirmation, and a borrow dialog on every row. */
module BooksPage {
  import opened Types
  import opened Effects
  import opened BookList
  import opened BookForm
  import opened Mutations
  import BorrowBookForm
  import Text

  const DeleteQuestion := "Delete this book?"

  /** The availability column of this page: the stored flag, not the copy count. */
  function AvailabilityCell(b: Book): (s: string)
    ensures s == "Yes" <==> b.available
    ensures s == "No" <==> !b.available
  {
    if b.available then "Yes" else "No"
  }

  /** The borrow dialog of a row: offered for every book, whatever its copies. */
  function BorrowDialogFor(b: Book): (p: BorrowBookForm.Props)
    ensures p.bookId == b.id && p.maxQuantity == b.copies
  {
    BorrowBookForm.Props(b.id, b.copies)
  }

  /** On this page a book with no copies still offers a borrow dialog, and that
      dialog rejects every submission without sending a request. */
  lemma NoCopiesDialogSendsNothing(b: Book, quantity: int, dueDate: string, gw: Outcome)
    requires b.copies <= 0
    ensures !HasRequest(BorrowBookForm.SubmitEffects(BorrowDialogFor(b), quantity, dueDate, gw))
  {
    BorrowBookForm.NoCopiesRejectsAll(BorrowDialogFor(b), quantity, dueDate, gw);
  }

  class BooksPage {
    /** The list the books query returned (empty until it has data). */
    var books: seq<Book>
    var search: string
    var sortBy: SortKey
    var editBook: Option<Book>
    var openDialog: bool
    var borrowBookId: Option<string>
    /** The collation behind `localeCompare`. */
    const cmp: (string, string) -> int

    constructor (books: seq<Book>, cmp: (string, string) -> int)
      ensures this.books == books && this.cmp == cmp
      ensures search == "" && sortBy == Title
      ensures editBook == None && !openDialog && borrowBookId == None
    {
      this.books := books;
      this.cmp := cmp;
      search := "";
      sortBy := Title;
      editBook := None;
      openDialog := false;
      borrowBookId := None;
    }

    /** The memoised list the table renders: the books whose lower-cased title
        or author contains the lower-cased search, each as often as in the
        query's list, in the chosen column's order. */
    function Shown(): (r: seq<Book>)
      reads this
      ensures forall i :: 0 <= i < |r| ==> Matches(r[i], Text.ToLower(search))
      ensures forall b :: multiset(r)[b] == if Matches(b, Text.ToLower(search)) then multiset(books)[b] else 0
      ensures sortBy == Copies ==> forall i :: 0 <= i < |r| - 1 ==> r[i].copies >= r[i + 1].copies
      ensures sortBy == Title && Total(cmp) ==> forall i :: 0 <= i < |r| - 1 ==> cmp(r[i].title, r[i + 1].title) <= 0
      ensures sortBy == Author && Total(cmp) ==> forall i :: 0 <= i < |r| - 1 ==> cmp(r[i].author, r[i + 1].author) <= 0
    {
      Filtered(books, search, sortBy, cmp)
    }

    /** `handleCreate`: apply the availability rule to the values, send them,
        and turn the settled request into a result envelope. */
    method HandleCreate(v: BookFormValues, gw: Outcome) returns (r: Envelope, effects: seq<Effect>)
      modifies v
      ensures v.Data() == AvailabilityRule(old(v.Data()))
      ensures effects == [Request(AddBook(v.Data()))]
      ensures old(v.copies) == 0 ==> v.available == Some(false)
      ensures r == CreateResult(gw)
    {
      v.ApplyAvailabilityRule();
      effects := [Request(AddBook(v.Data()))];
      r := CreateResult(gw);
    }

    /** `handleUpdate`: without a selected book it answers at once and sends
        nothing; otherwise it sends the values under the selected book's id. */
    method HandleUpdate(v: BookFormValues, gw: Outcome) returns (r: Envelope, effects: seq<Effect>)
      modifies v
      ensures editBook.None? ==> r == NoBookSelected && effects == [] && v.Data() == old(v.Data())
      ensures editBook.Some? ==> v.Data() == AvailabilityRule(old(v.Data()))
      ensures editBook.Some? ==> effects == [Request(UpdateBook(editBook.value.id, v.Data()))]
      ensures editBook.Some? ==> r == UpdateResult(gw)
    {
      if editBook.None? {
        return NoBookSelected, [];
      }
      v.ApplyAvailabilityRule();
      effects := [Request(UpdateBook(editBook.value.id, v.Data()))];
      r := UpdateResult(gw);
    }

    /** `handleDelete`: the delete request is sent if and only if the user
        confirms; a failed request is not caught, so the handler rejects. */
    method HandleDelete(id: string, confirmed: bool, gw: Outcome) returns (effects: seq<Effect>, settled: Settled)
      ensures confirmed ==> effects == [Confirm(DeleteQuestion), Request(DeleteBook(id))]
      ensures !confirmed ==> effects == [Confirm(DeleteQuestion)] && settled == Resolved
      ensures HasRequest(effects) <==> confirmed
      ensures settled == Rejected <==> confirmed && gw.Err?
    {
      effects := [Confirm(DeleteQuestion)];
      settled := Resolved;
      if confirmed {
        effects := effects + [Request(DeleteBook(id))];
        if gw.Err? {
          settled := Rejected;
        }
      }
      assert confirmed ==> effects[1].Request?;
      assert !confirmed ==> forall i | 0 <= i < |effects| :: effects[i] == Confirm(DeleteQuestion);
    }

    /** `handleEditClick`: select the book and open the dialog. */
    method HandleEditClick(book: Book)
      modifies this
      ensures editBook == Some(book) && openDialog
      ensures books == old(books) && search == old(search) && sortBy == old(sortBy)
      ensures borrowBookId == old(borrowBookId)
    {
      editBook := Some(book);
      openDialog := true;
    }

    /** The "Add Book" button: clear the selection and open the dialog. */
    method HandleAddClick()
      modifies this
      ensures editBook == None && openDialog
      ensures books == old(books) && search == old(search) && sortBy == old(sortBy)
      ensures borrowBookId == old(borrowBookId)
    {
      editBook := None;
      openDialog := true;
    }

    /** Submitting the dialog's book form, whose `onSubmit` is the update
        handler when a book is selected and the create handler otherwise. The
        form applies the availability rule, the handler applies it again, and
        the form turns the envelope into a notice. */
    method SubmitForm(form: BookForm, gw: Outcome) returns (effects: seq<Effect>)
      ensures !RequiredFilled(form.fields) ==> effects == []
      ensures RequiredFilled(form.fields) && editBook.None? ==>
        effects == [Request(AddBook(AvailabilityRule(form.fields))), Toast(NoticeFor(Returned(CreateResult(gw))))]
      ensures RequiredFilled(form.fields) && editBook.Some? ==>
        effects == [Request(UpdateBook(editBook.value.id, AvailabilityRule(form.fields))),
                    Toast(NoticeFor(Returned(UpdateResult(gw))))]
    {
      if !RequiredFilled(form.fields) {
        return [];
      }
      var values := new BookFormValues(form.fields);
      values.ApplyAvailabilityRule();
      AvailabilityRuleIdempotent(form.fields);
      var res: Envelope, sent: seq<Effect>;
      if editBook.Some? {
        res, sent := HandleUpdate(values, gw);
      } else {
        res, sent := HandleCreate(values, gw);
      }
      effects := sent + [Toast(NoticeFor(Returned(res)))];
    }
  }
}
