/** The borrow form: a quantity and a due date, checked against the copy count
    the dialog was opened with, then sent as a borrow request. */
module BorrowBookForm {
  import opened Types
  import opened Text
  import opened Effects

  /** The properties a dialog passes to the form. */
  datatype Props = Props(bookId: string, maxQuantity: int)

  /** The quantity check of the submit handler: a quantity is rejected when it
      is below one or above the book's copies. */
  predicate QuantityInRange(quantity: int, maxQuantity: int) {
    !(quantity < 1 || quantity > maxQuantity)
  }

  /** What the check accepts: exactly the quantities from one to the maximum,
      so a maximum below one accepts nothing. */
  lemma QuantityInRangeMeaning(quantity: int, maxQuantity: int)
    ensures QuantityInRange(quantity, maxQuantity) <==> 1 <= quantity <= maxQuantity
    ensures maxQuantity < 1 ==> !QuantityInRange(quantity, maxQuantity)
  {
  }

  const QuantityErrorPrefix := "Quantity must be between 1 and "

  /** The message of a rejected quantity: the fixed text, then the decimal
      rendering of the maximum. */
  function QuantityError(maxQuantity: int): (m: string)
    ensures m == QuantityErrorPrefix + IntToString(maxQuantity)
    ensures QuantityErrorPrefix <= m && |m| > |QuantityErrorPrefix|
    ensures maxQuantity >= 0 ==> DigitsValue(m[|QuantityErrorPrefix|..]) == maxQuantity
    ensures maxQuantity < 0 ==> m[|QuantityErrorPrefix|] == '-' && DigitsValue(m[|QuantityErrorPrefix| + 1..]) == -maxQuantity
  {
    var digits := IntToString(maxQuantity);
    var m := QuantityErrorPrefix + digits;
    assert m[|QuantityErrorPrefix|..] == digits;
    assert m[|QuantityErrorPrefix|] == digits[0];
    assert maxQuantity < 0 ==> m[|QuantityErrorPrefix| + 1..] == digits[1..];
    m
  }

  const BorrowSummaryPath := "/borrow-summary"

  /** Everything one submission does, in order, given how the borrow request settles. */
  function SubmitEffects(props: Props, quantity: int, dueDate: string, gw: Outcome): (effects: seq<Effect>)
    ensures !QuantityInRange(quantity, props.maxQuantity) ==>
      effects == [Toast(ErrorNotice(QuantityError(props.maxQuantity)))]
    ensures QuantityInRange(quantity, props.maxQuantity) ==>
      |effects| >= 2 && effects[0] == Request(BorrowBook(BorrowPayload(props.bookId, quantity, dueDate)))
    ensures QuantityInRange(quantity, props.maxQuantity) && gw.Ok? ==>
      effects[1..] == [Toast(SuccessNotice("Book borrowed successfully!")), Navigate(BorrowSummaryPath)]
    ensures QuantityInRange(quantity, props.maxQuantity) && gw.Err? ==>
      effects[1..] == [Toast(ErrorNotice(MessageOr(gw.message, "Failed to borrow book.")))]
    ensures HasRequest(effects) <==> QuantityInRange(quantity, props.maxQuantity)
    ensures HasNavigation(effects) <==> QuantityInRange(quantity, props.maxQuantity) && gw.Ok?
  {
    if quantity < 1 || quantity > props.maxQuantity then
      [Toast(ErrorNotice(QuantityError(props.maxQuantity)))]
    else
      var sent := Request(BorrowBook(BorrowPayload(props.bookId, quantity, dueDate)));
      match gw
      case Ok =>
        var r := [sent, Toast(SuccessNotice("Book borrowed successfully!")), Navigate(BorrowSummaryPath)];
        assert r[2].Navigate?;
        r
      case Err(m) =>
        var r := [sent, Toast(ErrorNotice(MessageOr(m, "Failed to borrow book.")))];
        assert !HasNavigation(r) by {
          forall i | 0 <= i < |r| ensures !r[i].Navigate? {}
        }
        r
  }

  /** A dialog opened for a book with no copies rejects every submission
      without sending anything. */
  lemma NoCopiesRejectsAll(props: Props, quantity: int, dueDate: string, gw: Outcome)
    requires props.maxQuantity < 1
    ensures SubmitEffects(props, quantity, dueDate, gw) == [Toast(ErrorNotice(QuantityError(props.maxQuantity)))]
    ensures !HasRequest(SubmitEffects(props, quantity, dueDate, gw))
  {
  }

  /** Asking for three copies of a book that has two. */
  lemma ThreeOfTwoRejected(bookId: string, dueDate: string, gw: Outcome)
    ensures SubmitEffects(Props(bookId, 2), 3, dueDate, gw) ==
      [Toast(ErrorNotice("Quantity must be between 1 and 2"))]
  {
    assert DigitChar(2) == '2';
    assert IntToString(2) == "2";
    assert QuantityError(2) == "Quantity must be between 1 and 2";
  }

  /** One mounted form with its two inputs. */
  class BorrowBookForm {
    const props: Props
    var quantity: int
    var dueDate: string

    constructor (props: Props)
      ensures this.props == props && quantity == 1 && dueDate == ""
    {
      this.props := props;
      quantity := 1;
      dueDate := "";
    }

    /** The quantity input's change handler. */
    method SetQuantity(q: int)
      modifies this
      ensures quantity == q && dueDate == old(dueDate)
    {
      quantity := q;
    }

    /** The due-date input's change handler; the date is not checked. */
    method SetDueDate(d: string)
      modifies this
      ensures dueDate == d && quantity == old(quantity)
    {
      dueDate := d;
    }

    /** Submitting the form. It leaves the inputs as they are, on every path. */
    method HandleSubmit(gw: Outcome) returns (effects: seq<Effect>)
      ensures effects == SubmitEffects(props, quantity, dueDate, gw)
    {
      if quantity < 1 || quantity > props.maxQuantity {
        effects := [Toast(ErrorNotice(QuantityError(props.maxQuantity)))];
        return;
      }
      var payload := BorrowPayload(props.bookId, quantity, dueDate);
      effects := [Request(BorrowBook(payload))];
      match gw {
        case Ok =>
          effects := effects + [Toast(SuccessNotice("Book borrowed successfully!"))];
          effects := effects + [Navigate(BorrowSummaryPath)];
        case Err(m) =>
          effects := effects + [Toast(ErrorNotice(MessageOr(m, "Failed to borrow book.")))];
      }
    }
  }
}
