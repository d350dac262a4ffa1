/** The create page: the book form's values are reshaped into the body the API
    expects, sent, and followed by a redirect to the book list. */
module CreateBookPage {
  import opened Types
  import opened Effects
  import opened BookForm

  const BooksPath := "/books"

  /** The request body: the six fields copied as they are, `available`
      defaulting to true when the values leave it undefined. */
  function BuildPayload(v: FormData): (p: BookPayload)
    ensures p.title == v.title && p.author == v.author && p.genre == v.genre
    ensures p.isbn == v.isbn && p.description == v.description && p.copies == v.copies
    ensures v.available.Some? ==> p.available == v.available.value
    ensures v.available.None? ==> p.available
  {
    BookPayload(v.title, v.author, v.genre, v.isbn, v.description, v.copies, v.available.GetOr(true))
  }

  /** Through the form's availability rule, zero copies reaches the body as
      unavailable; any other count keeps the form's flag, or true. */
  lemma RuleReachesPayload(d: FormData)
    ensures d.copies == 0 ==> !BuildPayload(AvailabilityRule(d)).available
    ensures d.copies != 0 ==> BuildPayload(AvailabilityRule(d)).available == d.available.GetOr(true)
  {
  }

  /** Values that came out of the form always define `available`, so the body's
      flag is the form's flag. */
  lemma FormValuesKeepFlag(initial: Option<PartialValues>)
    ensures BuildPayload(Merge(initial)).available == Merge(initial).available.value
  {
  }

  /** `handleSubmit`: send the body, then navigate once the request succeeds.
      A failed request rejects the handler and nothing navigates. On success
      the handler resolves to nothing, not to a `{ success, message }` value. */
  method HandleSubmit(values: BookFormValues, gw: Outcome) returns (effects: seq<Effect>, answer: SubmitOutcome)
    ensures effects == [Request(AddBookPayload(BuildPayload(values.Data())))] + (if gw.Ok? then [Navigate(BooksPath)] else [])
    ensures answer == if gw.Ok? then ReturnedNothing else Threw
    ensures HasNavigation(effects) <==> gw.Ok?
  {
    var payload := BuildPayload(values.Data());
    effects := [Request(AddBookPayload(payload))];
    if gw.Err? {
      answer := Threw;
      assert forall i | 0 <= i < |effects| :: effects[i].Request?;
      return;
    }
    effects := effects + [Navigate(BooksPath)];
    answer := ReturnedNothing;
    assert effects[1].Navigate?;
  }

  /** The page's book form submitted with `handleSubmit` as its `onSubmit`.
      Whichever way the request settles, the form shows the error notice: on
      success because the handler's answer has no `success` to read. */
  method SubmitForm(form: BookForm, gw: Outcome) returns (effects: seq<Effect>)
    ensures !RequiredFilled(form.fields) ==> effects == []
    ensures RequiredFilled(form.fields) ==>
      effects == [Request(AddBookPayload(BuildPayload(AvailabilityRule(form.fields))))]
                 + (if gw.Ok? then [Navigate(BooksPath)] else [])
                 + [Toast(ErrorNotice("Failed to save book. Please try again."))]
  {
    if !RequiredFilled(form.fields) {
      return [];
    }
    var values := new BookFormValues(form.fields);
    values.ApplyAvailabilityRule();
    var sent, answer := HandleSubmit(values, gw);
    effects := sent + [Toast(NoticeFor(answer))];
  }

  /** `handleSubmit` resolving to the envelope its `onSubmit` type promises. */
  method HandleSubmitCorrected(values: BookFormValues, gw: Outcome) returns (effects: seq<Effect>, answer: SubmitOutcome)
    ensures effects == [Request(AddBookPayload(BuildPayload(values.Data())))] + (if gw.Ok? then [Navigate(BooksPath)] else [])
    ensures answer == if gw.Ok? then Returned(Envelope(true, "Book created successfully")) else Threw
    ensures HasNavigation(effects) <==> gw.Ok?
  {
    effects, answer := HandleSubmit(values, gw);
    if gw.Ok? {
      answer := Returned(Envelope(true, "Book created successfully"));
    }
  }

  /** The form submitted with the corrected handler: a success notice exactly
      when the book was created and the page navigated. */
  method SubmitFormCorrected(form: BookForm, gw: Outcome) returns (effects: seq<Effect>)
    ensures !RequiredFilled(form.fields) ==> effects == []
    ensures RequiredFilled(form.fields) ==>
      effects == [Request(AddBookPayload(BuildPayload(AvailabilityRule(form.fields))))]
                 + (if gw.Ok? then [Navigate(BooksPath)] else [])
                 + [Toast(if gw.Ok? then SuccessNotice("Book created successfully")
                          else ErrorNotice("Failed to save book. Please try again."))]
    ensures RequiredFilled(form.fields) ==> (effects[|effects| - 1].notice.SuccessNotice? <==> gw.Ok?)
  {
    if !RequiredFilled(form.fields) {
      return [];
    }
    var values := new BookFormValues(form.fields);
    values.ApplyAvailabilityRule();
    var sent, answer := HandleSubmitCorrected(values, gw);
    effects := sent + [Toast(NoticeFor(answer))];
  }
}
