/** The book form: its default values merged with an optional initial record,
    the reset when that record changes, the required fields, and the mapping
    of the submit handler's answer to a notice. */
module BookForm {
  import opened Types
  import opened Effects

  /** `Partial<BookFormValues>`: each field is present or absent. */
  datatype PartialValues = PartialValues(
    id: Option<string>,
    title: Option<string>,
    author: Option<string>,
    genre: Option<string>,
    isbn: Option<string>,
    description: Option<string>,
    copies: Option<int>,
    available: Option<bool>)

  /** A book record used as the form's initial values (the edit dialog); the
      optional fields of the record are present only when the record has them. */
  function FromBook(b: Book): PartialValues {
    PartialValues(Some(b.id), Some(b.title), Some(b.author), b.genre, b.isbn, b.description,
                  Some(b.copies), Some(b.available))
  }

  /** The defaults written out in the form. */
  const Defaults: FormData := FormData(None, "", "", "", "", "", 1, Some(true))

  /** Every field present in `p` has its value in `r`; every other has its default. */
  ghost predicate Overrides(p: PartialValues, r: FormData) {
    && (p.id.Some? ==> r.id == p.id) && (p.id.None? ==> r.id == Defaults.id)
    && (p.title.Some? ==> r.title == p.title.value) && (p.title.None? ==> r.title == Defaults.title)
    && (p.author.Some? ==> r.author == p.author.value) && (p.author.None? ==> r.author == Defaults.author)
    && (p.genre.Some? ==> r.genre == p.genre.value) && (p.genre.None? ==> r.genre == Defaults.genre)
    && (p.isbn.Some? ==> r.isbn == p.isbn.value) && (p.isbn.None? ==> r.isbn == Defaults.isbn)
    && (p.description.Some? ==> r.description == p.description.value)
    && (p.description.None? ==> r.description == Defaults.description)
    && (p.copies.Some? ==> r.copies == p.copies.value) && (p.copies.None? ==> r.copies == Defaults.copies)
    && (p.available.Some? ==> r.available == p.available) && (p.available.None? ==> r.available == Defaults.available)
  }

  /** `{ ...defaults, ...initial }`. */
  function Merge(initial: Option<PartialValues>): (r: FormData)
    ensures initial.None? ==> r == Defaults
    ensures initial.Some? ==> Overrides(initial.value, r)
    ensures r.available.Some?
  {
    match initial
    case None => Defaults
    case Some(p) =>
      FormData(
        if p.id.Some? then p.id else Defaults.id,
        p.title.GetOr(Defaults.title),
        p.author.GetOr(Defaults.author),
        p.genre.GetOr(Defaults.genre),
        p.isbn.GetOr(Defaults.isbn),
        p.description.GetOr(Defaults.description),
        p.copies.GetOr(Defaults.copies),
        Some(p.available.GetOr(true)))
  }

  /** The edit form opens with the record's own values; the optional text
      fields the record lacks are empty. */
  lemma EditFormShowsBook(b: Book)
    ensures Merge(Some(FromBook(b))) ==
      FormData(Some(b.id), b.title, b.author, b.genre.GetOr(""), b.isbn.GetOr(""),
               b.description.GetOr(""), b.copies, Some(b.available))
  {
  }

  /** Title, author, genre and ISBN are registered as required: the submit
      handler runs only when all four are non-empty. */
  predicate RequiredFilled(d: FormData) {
    d.title != "" && d.author != "" && d.genre != "" && d.isbn != ""
  }

  /** The empty form of the add dialog cannot be submitted as it is. */
  lemma DefaultsNotSubmittable()
    ensures !RequiredFilled(Merge(None))
  {
  }

  /** The `{ success, message }` value a submit handler resolves to. */
  datatype Envelope = Envelope(success: bool, message: string)

  /** What awaiting the submit handler gives: an envelope, an answer of
      `undefined` (nothing), or a thrown error. */
  datatype SubmitOutcome = Returned(res: Envelope) | ReturnedNothing | Threw

  /** The notice shown after the submit handler settles. Reading `success` of
      `undefined` throws inside the same `try`, so it ends like a thrown error. */
  function NoticeFor(o: SubmitOutcome): (n: Notice)
    ensures n.SuccessNotice? <==> o.Returned? && o.res.success
    ensures o.Returned? && o.res.message != "" ==> n.text == o.res.message
    ensures o.Returned? && o.res.message == "" ==>
      n.text == (if o.res.success then "Book saved successfully!" else "Something went wrong.")
    ensures !o.Returned? ==> n == ErrorNotice("Failed to save book. Please try again.")
    ensures n.text != ""
  {
    match o
    case Returned(res) =>
      if res.success then SuccessNotice(if res.message != "" then res.message else "Book saved successfully!")
      else ErrorNotice(if res.message != "" then res.message else "Something went wrong.")
    case ReturnedNothing => ErrorNotice("Failed to save book. Please try again.")
    case Threw => ErrorNotice("Failed to save book. Please try again.")
  }

  /** One mounted form: the record it was opened with and the values it holds. */
  class BookForm {
    var initial: Option<PartialValues>
    var fields: FormData

    constructor (initial: Option<PartialValues>)
      ensures this.initial == initial && fields == Merge(initial)
    {
      this.initial := initial;
      fields := Merge(initial);
    }

    /** The user edits the inputs; there is no input for the identifier, so it
        keeps the value the form was opened with. */
    method Input(d: FormData)
      modifies this
      ensures fields == d.(id := old(fields.id)) && initial == old(initial)
    {
      fields := d.(id := fields.id);
    }

    /** The effect on a new `initial`: the form is reset to the same merge of
      defaults and record that a freshly mounted form starts with. */
    method OnInitialChange(initial: Option<PartialValues>)
      modifies this
      ensures this.initial == initial && fields == Merge(initial)
    {
      this.initial := initial;
      fields := Merge(initial);
    }
  }
}
