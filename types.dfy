/** Record shapes shared by the pages and forms of the library front-end. */
module Types {

  datatype Option<T> = None | Some(value: T) {
    /** The `??` operator: the value when present, else the default. */
    function GetOr(default: T): T {
      match this
      case Some(v) => v
      case None => default
    }
  }

  /** A book record as the remote API returns it; `id` is the record's `_id`.
      `genre`, `isbn` and `description` are optional in the record type. */
  datatype Book = Book(
    id: string,
    title: string,
    author: string,
    genre: Option<string>,
    isbn: Option<string>,
    description: Option<string>,
    copies: int,
    available: bool)

  /** The values a book form holds: every field of a book, with the identifier
      optional (absent in a fresh form) and `available` possibly undefined. */
  datatype FormData = FormData(
    id: Option<string>,
    title: string,
    author: string,
    genre: string,
    isbn: string,
    description: string,
    copies: int,
    available: Option<bool>)

  /** The availability rule of the submit handlers: zero copies marks the book
      unavailable; any other count leaves `available` as the caller set it. */
  function AvailabilityRule(d: FormData): (r: FormData)
    ensures d.copies == 0 ==> r.available == Some(false)
    ensures d.copies != 0 ==> r.available == d.available
    ensures r == d.(available := r.available)
  {
    if d.copies == 0 then d.(available := Some(false)) else d
  }

  /** Applying the rule a second time changes nothing, so the form and the page
      handler that both apply it agree with one application. */
  lemma AvailabilityRuleIdempotent(d: FormData)
    ensures AvailabilityRule(AvailabilityRule(d)) == AvailabilityRule(d)
  {
  }

  /** The body the create page sends: exactly these seven fields, no identifier. */
  datatype BookPayload = BookPayload(
    title: string,
    author: string,
    genre: string,
    isbn: string,
    description: string,
    copies: int,
    available: bool)

  /** The body of a borrow request. */
  datatype BorrowPayload = BorrowPayload(book: string, quantity: int, dueDate: string)

  /** The form-values object handed to submit handlers; the handlers update its
      `available` field in place, so it is an object and not a value. */
  class BookFormValues {
    var id: Option<string>
    var title: string
    var author: string
    var genre: string
    var isbn: string
    var description: string
    var copies: int
    var available: Option<bool>

    /** The values the object holds now. */
    function Data(): FormData
      reads this
    {
      FormData(id, title, author, genre, isbn, description, copies, available)
    }

    constructor (d: FormData)
      ensures Data() == d
    {
      id, title, author, genre := d.id, d.title, d.author, d.genre;
      isbn, description, copies, available := d.isbn, d.description, d.copies, d.available;
    }

    /** `if (v.copies === 0) v.available = false`, on the object itself. */
    method ApplyAvailabilityRule()
      modifies this
      ensures Data() == AvailabilityRule(old(Data()))
    {
      if copies == 0 {
        available := Some(false);
      }
    }
  }
}
