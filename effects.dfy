/** What the handlers do to the outside world, as values: the requests they send
    to the remote API, the notices they show, the routes they navigate to and the
    confirmations they ask for. A handler returns these, in order, as a log;
    the answer of the remote API to a request is an `Outcome` parameter. */
module Effects {
  import opened Types

  /** The settled answer to one request: success, or a rejection whose error
      payload may carry a message. */
  datatype Outcome = Ok | Err(message: Option<string>)

  /** One request to the remote API. */
  datatype Call =
    | AddBook(values: FormData)
    | AddBookPayload(payload: BookPayload)
    | UpdateBook(id: string, data: FormData)
    | DeleteBook(bookId: string)
    | BorrowBook(borrow: BorrowPayload)

  /** A toast notice. */
  datatype Notice = SuccessNotice(text: string) | ErrorNotice(text: string)

  datatype Effect =
    | Request(call: Call)
    | Toast(notice: Notice)
    | Navigate(path: string)
    | Confirm(question: string)

  /** How an async handler settles: it resolves, or the error propagates. */
  datatype Settled = Resolved | Rejected

  /** `err?.data?.message || fallback`: a missing or empty message gives the fallback. */
  function MessageOr(message: Option<string>, fallback: string): (r: string)
    ensures message.Some? && message.value != "" ==> r == message.value
    ensures message.None? || message.value == "" ==> r == fallback
    ensures fallback != "" ==> r != ""
  {
    match message
    case Some(m) => if m != "" then m else fallback
    case None => fallback
  }

  /** Whether a log contains a request at all. */
  predicate HasRequest(effects: seq<Effect>) {
    exists i :: 0 <= i < |effects| && effects[i].Request?
  }

  /** Whether a log navigates anywhere. */
  predicate HasNavigation(effects: seq<Effect>) {
    exists i :: 0 <= i < |effects| && effects[i].Navigate?
  }
}
