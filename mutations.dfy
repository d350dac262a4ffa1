/** The results of the create and update handlers that the books page and the
    home page both define, word for word. */
module Mutations {
  import opened Effects
  import opened BookForm

  /** What `handleCreate` resolves to once the add request has settled. */
  function CreateResult(gw: Outcome): (r: Envelope)
    ensures r.success <==> gw.Ok?
    ensures gw.Ok? ==> r.message == "Book created successfully"
    ensures gw.Err? ==> r.message == MessageOr(gw.message, "Failed to create book")
    ensures r.message != ""
  {
    match gw
    case Ok => Envelope(true, "Book created successfully")
    case Err(m) => Envelope(false, MessageOr(m, "Failed to create book"))
  }

  /** What `handleUpdate` resolves to once the update request has settled. */
  function UpdateResult(gw: Outcome): (r: Envelope)
    ensures r.success <==> gw.Ok?
    ensures gw.Ok? ==> r.message == "Book updated successfully"
    ensures gw.Err? ==> r.message == MessageOr(gw.message, "Failed to update book")
    ensures r.message != ""
  {
    match gw
    case Ok => Envelope(true, "Book updated successfully")
    case Err(m) => Envelope(false, MessageOr(m, "Failed to update book"))
  }

  /** `handleUpdate` with no book selected. */
  const NoBookSelected := Envelope(false, "No book selected")

  /** Through the book form, a page's create handler shows its own message:
      the form's generic fallbacks never appear, because the envelope always
      carries a non-empty message. */
  lemma CreateNotice(gw: Outcome)
    ensures NoticeFor(Returned(CreateResult(gw))) ==
      if gw.Ok? then SuccessNotice("Book created successfully")
      else ErrorNotice(MessageOr(gw.message, "Failed to create book"))
  {
  }

  /** The same for the update handler, and for the "No book selected" answer. */
  lemma UpdateNotice(gw: Outcome)
    ensures NoticeFor(Returned(UpdateResult(gw))) ==
      if gw.Ok? then SuccessNotice("Book updated successfully")
      else ErrorNotice(MessageOr(gw.message, "Failed to update book"))
    ensures NoticeFor(Returned(NoBookSelected)) == ErrorNotice("No book selected")
  {
  }
}
