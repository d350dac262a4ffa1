# Library front-end: book list, book forms and borrow form

This project models the client-side logic of a small library-management web front-end.
The front-end is a set of React pages over a remote book API. The model covers:

- the books page's search-and-sort list and the home page's title-sorted list;
- the create, update and delete handlers that both pages define;
- the availability rule (zero copies marks a book unavailable);
- the book form: its default values, its reset, its required fields and the notice it shows after submitting;
- the borrow form's quantity check and its request, notice and navigation sequence;
- the create page's request body and its redirect.

Everything the program does to the outside world is a value in an ordered effect log (`Effects.Effect`):

- a request to the API;
- a toast notice;
- a navigation;
- a confirmation prompt.

How the remote API answers a request is a parameter (`Effects.Outcome`: `Ok`, or `Err` with an optional message).
So "no request was sent" and "navigation comes after the successful request" are statements about the log.
The `confirm` dialog's answer is a boolean parameter.
The collation behind `localeCompare` is a parameter `cmp: (string, string) -> int`.
Its ordering facts (totality, transitivity) are hypotheses of the lemmas that need them.

Modules follow the source files:

- `Types`: the book record of `src/types/index.ts`, the form values, the request bodies, and the availability rule on the form-values object.
- `Text`: lower-casing, substring search, and integer rendering in a template string.
- `Effects`: requests, notices, the effect log, and the `message || fallback` rule.
- `BookList`: the filter and the sort, where a stable insertion sort models the library's `sort`.
- `BookForm`, `BorrowBookForm`, `BooksPage`, `HomePage`, `CreateBookPage`: one module per component file.
- `Mutations`: the result envelopes that the two pages' handlers share word for word.

The form-values object is a class, because the handlers set its `available` field in place.
The page states are classes too, and so are the form instances.
The home page's sort runs on a fresh copy of the cached array.

The model follows the code as written. In particular:

- The handlers never set `available` to true when copies are positive. They only force it to false at zero copies.
- The borrow form's due date starts empty and is never checked by the submit handler.
- Negative copies are not re-checked by the submit handlers.
- A failed delete request is not caught, so `handleDelete` rejects (`Settled.Rejected`).
- The books page offers a borrow dialog on every row, even at zero copies. The home page offers one only when copies are positive.

## Model

| member | source | states |
|---|---|---|
| Types.AvailabilityRule | src/pages/BooksPage.tsx:41 | zero copies gives `available == Some(false)`; any other count leaves `available` as given; no other field changes |
| Types.AvailabilityRuleIdempotent | src/components/modules/books/BookForm.tsx:51 | applying the rule twice (form, then page handler) equals applying it once |
| Types.BookFormValues.ApplyAvailabilityRule | src/components/modules/books/BookForm.tsx:51 | the object's new values are the rule applied to its old values |
| Effects.MessageOr | src/pages/BooksPage.tsx:45 | a present, non-empty remote message is used; a missing or empty one gives the fallback; a non-empty fallback gives a non-empty result |
| Text.ToLower | src/pages/BooksPage.tsx:30 | same length, each character lower-cased, no upper-case letter remains |
| Text.Contains | src/pages/BooksPage.tsx:32 | `includes` as a recursive search; its meaning is stated by `Text.ContainsMeansOccurs` |
| Text.ContainsMeansOccurs | src/pages/BooksPage.tsx:32 | `includes` holds exactly when the query is a prefix of some suffix |
| Text.ContainsEmpty | src/pages/BooksPage.tsx:32 | the empty query occurs in every string |
| Text.NatToString | src/components/modules/borrow/BorrowBookForm.tsx:24 | decimal digits only, whose digit value is the number, with a leading zero only for zero |
| Text.IntToString | src/components/modules/borrow/BorrowBookForm.tsx:24 | '-' first exactly for negative numbers; the remaining digits spell the magnitude (digit value equals the number for non-negatives, its negation otherwise) |
| BookList.Compare | src/pages/BooksPage.tsx:33-36 | by copies: negative exactly when the first book has more copies, zero exactly when equal; by title or author: the collation of that column |
| BookList.Insert | src/pages/BooksPage.tsx:33-36 | adds exactly one element to the multiset and keeps a comparator-sorted list sorted, given a total comparator |
| BookList.SortBooks | src/pages/BooksPage.tsx:33-36 | the result is a permutation of the input; with copies, or with a total collation, consecutive elements are in comparator order |
| BookList.SortedPairwise | src/pages/BooksPage.tsx:33-36 | with a transitive comparator, consecutive order gives order between any two positions |
| BookList.SortedMeaning | src/pages/BooksPage.tsx:34-35 | a sorted list has non-increasing copies by copies, and non-decreasing title or author under the collation |
| BookList.Matches | src/pages/BooksPage.tsx:32 | the lower-cased title or the lower-cased author contains the query; the filter's and the page list's contracts are stated with it |
| BookList.Filter | src/pages/BooksPage.tsx:31-32 | every kept book matches; each book occurs as often as in the input if it matches, otherwise not at all |
| BookList.Filtered | src/pages/BooksPage.tsx:29-37 | every shown book's lower-cased title or author contains the lower-cased search; the multiset is exactly the matching books; copies non-increasing, or title/author non-decreasing under a total collation |
| BookList.FilteredEmptySearch | src/pages/BooksPage.tsx:30-36 | with an empty search the shown list is a permutation of all books |
| BookForm.Merge | src/components/modules/books/BookForm.tsx:23-32 | no initial record gives the defaults ("" texts, copies 1, available true); otherwise each present field overrides its default and the others keep it; `available` is always defined |
| BookForm.EditFormShowsBook | src/components/modules/books/BookForm.tsx:23-32 | an edit form opened on a record holds the record's id and values, with "" for a missing genre, ISBN or description |
| BookForm.RequiredFilled | src/components/modules/books/BookForm.tsx:70-88 | title, author, genre and ISBN are all non-empty, the four `required` registrations; the page submit contracts gate on it |
| BookForm.DefaultsNotSubmittable | src/components/modules/books/BookForm.tsx:70 | the empty add form fails the required-field check |
| BookForm.NoticeFor | src/components/modules/books/BookForm.tsx:53-62 | a success notice exactly for a returned successful envelope; the envelope's message, else "Book saved successfully!" or "Something went wrong."; a throw, or an answer of `undefined` (nothing), gives "Failed to save book. Please try again." |
| BookForm.BookForm.constructor | src/components/modules/books/BookForm.tsx:22-33 | a mounted form holds the merge of defaults and initial record |
| BookForm.BookForm.OnInitialChange | src/components/modules/books/BookForm.tsx:35-46 | a new initial record resets the fields to the same merge a fresh form starts with |
| BookForm.BookForm.Input | src/components/modules/books/BookForm.tsx:66-112 | user input replaces every registered field; the identifier, which has no input, and the initial record are kept |
| Mutations.CreateResult | src/pages/BooksPage.tsx:42-46 | success exactly on `Ok`, with "Book created successfully"; otherwise the remote message or "Failed to create book"; never an empty message |
| Mutations.UpdateResult | src/pages/BooksPage.tsx:53-57 | success exactly on `Ok`, with "Book updated successfully"; otherwise the remote message or "Failed to update book"; never an empty message |
| Mutations.CreateNotice | src/pages/BooksPage.tsx:39-47 | through the book form, creating shows the handler's own message; the form's generic fallbacks never appear |
| Mutations.UpdateNotice | src/pages/BooksPage.tsx:49-58 | the same for updating, and "No book selected" surfaces as an error notice |
| BorrowBookForm.QuantityInRangeMeaning | src/components/modules/borrow/BorrowBookForm.tsx:23 | the check accepts exactly the quantities from 1 to the maximum; a maximum below 1 accepts none |
| BorrowBookForm.QuantityError | src/components/modules/borrow/BorrowBookForm.tsx:24 | the message is "Quantity must be between 1 and " followed by the decimal rendering of the maximum: a '-' exactly for a negative maximum, then digits only, without a leading zero, whose value is the maximum's magnitude |
| BorrowBookForm.SubmitEffects | src/components/modules/borrow/BorrowBookForm.tsx:21-40 | out of range gives only the error "Quantity must be between 1 and {max}"; in range sends exactly `{book, quantity, dueDate}`; there is a request iff in range; navigation to "/borrow-summary" iff in range and the request succeeds, after the request and the success notice; a failure shows the remote message or "Failed to borrow book." |
| BorrowBookForm.NoCopiesRejectsAll | src/components/modules/borrow/BorrowBookForm.tsx:23 | with a maximum below 1 every submission is rejected and sends nothing |
| BorrowBookForm.ThreeOfTwoRejected | src/components/modules/borrow/BorrowBookForm.tsx:23-24 | quantity 3 against 2 copies gives exactly "Quantity must be between 1 and 2" and nothing else |
| BorrowBookForm.BorrowBookForm.constructor | src/components/modules/borrow/BorrowBookForm.tsx:18-19 | a new form starts with quantity 1 and an empty due date |
| BorrowBookForm.BorrowBookForm.SetQuantity | src/components/modules/borrow/BorrowBookForm.tsx:57 | sets the quantity only |
| BorrowBookForm.BorrowBookForm.SetDueDate | src/components/modules/borrow/BorrowBookForm.tsx:68 | sets the due date only, unchecked |
| BorrowBookForm.BorrowBookForm.HandleSubmit | src/components/modules/borrow/BorrowBookForm.tsx:21-40 | the submission's effects are `SubmitEffects` of the form's props and current inputs |
| BooksPage.AvailabilityCell | src/pages/BooksPage.tsx:135 | "Yes" exactly when the stored flag is set |
| BooksPage.BorrowDialogFor | src/pages/BooksPage.tsx:167 | every row's dialog gets that book's id and its copy count as the maximum |
| BooksPage.NoCopiesDialogSendsNothing | src/pages/BooksPage.tsx:167 | a row with no copies still has a borrow dialog, and it sends no request |
| BooksPage.BooksPage.constructor | src/pages/BooksPage.tsx:18-27 | empty search, sort by title, nothing selected, dialogs closed |
| BooksPage.BooksPage.Shown | src/pages/BooksPage.tsx:29-37 | the rendered list from the page's state: every shown book matches the lower-cased search, each matching book as often as in the query's list, in the chosen column's order |
| BooksPage.BooksPage.HandleCreate | src/pages/BooksPage.tsx:39-47 | applies the rule in place, sends the resulting values as one add request, answers `CreateResult` |
| BooksPage.BooksPage.HandleUpdate | src/pages/BooksPage.tsx:49-58 | with no selection answers "No book selected", sends nothing and leaves the values alone; otherwise applies the rule and sends one update under the selected book's id |
| BooksPage.BooksPage.HandleDelete | src/pages/BooksPage.tsx:60-62 | asks "Delete this book?"; the delete request is sent iff confirmed; the handler rejects iff confirmed and the request failed |
| BooksPage.BooksPage.HandleEditClick | src/pages/BooksPage.tsx:64-67 | selects the book and opens the dialog; the list state is unchanged |
| BooksPage.BooksPage.HandleAddClick | src/pages/BooksPage.tsx:94 | clears the selection and opens the dialog |
| BooksPage.BooksPage.SubmitForm | src/pages/BooksPage.tsx:102-106 | unfilled required fields send nothing; otherwise one add (no selection) or one update (selected id) with the rule applied, then the envelope's notice |
| HomePage.AvailabilityLabel | src/pages/HomePage.tsx:132 | "Available" exactly when copies > 0, "Unavailable" otherwise |
| HomePage.LabelIgnoresStoredFlag | src/pages/HomePage.tsx:132 | the label does not depend on the stored `available` flag |
| HomePage.BorrowOffer | src/pages/HomePage.tsx:151-163 | a borrow dialog exists exactly when copies > 0, for that book's id with its copies as maximum |
| HomePage.OfferedDialogAcceptsOne | src/pages/HomePage.tsx:163 | an offered dialog accepts its initial quantity of 1 |
| HomePage.SortInPlace | src/pages/HomePage.tsx:33-36 | the array's new contents are the stable sort of its old contents |
| HomePage.SortedByTitle | src/pages/HomePage.tsx:28-38 | the home list is a permutation of the cached books, non-decreasing by title under a total collation |
| HomePage.HomePage.constructor | src/pages/HomePage.tsx:17-28 | empty sorted list, sort fixed to title, nothing selected |
| HomePage.HomePage.SortEffect | src/pages/HomePage.tsx:30-39 | `sortedBooks` becomes the title sort of the cached books; the cached array keeps its order; the other state is unchanged |
| HomePage.HomePage.HandleCreate | src/pages/HomePage.tsx:41-49 | as on the books page |
| HomePage.HomePage.HandleUpdate | src/pages/HomePage.tsx:51-60 | as on the books page, including the "No book selected" guard |
| HomePage.HomePage.HandleDelete | src/pages/HomePage.tsx:62-64 | as on the books page: request iff confirmed |
| HomePage.HomePage.HandleEditClick | src/pages/HomePage.tsx:66-69 | selects the book and opens the dialog |
| HomePage.HomePage.SubmitForm | src/pages/HomePage.tsx:98-102 | as on the books page |
| CreateBookPage.BuildPayload | src/pages/CreateBookPage.tsx:12-20 | title, author, genre, ISBN, description and copies copied unchanged; `available` is the form's flag when defined, else true; the body type has no identifier |
| CreateBookPage.RuleReachesPayload | src/pages/CreateBookPage.tsx:19 | after the form's rule, zero copies reaches the body as unavailable; other counts keep the flag or true |
| CreateBookPage.FormValuesKeepFlag | src/pages/CreateBookPage.tsx:19 | values that come from the form always define `available`, so the `?? true` default only matters for other callers |
| CreateBookPage.HandleSubmit | src/pages/CreateBookPage.tsx:10-24 | one add request with the body, then "/books" exactly when it succeeded; a failure rejects; success resolves to nothing |
| CreateBookPage.SubmitForm | src/pages/CreateBookPage.tsx:32 | as written: after the request (and the redirect on success) the form shows "Failed to save book. Please try again." on either outcome |
| CreateBookPage.HandleSubmitCorrected | src/pages/CreateBookPage.tsx:10-24 | the same effects, resolving to `{true, "Book created successfully"}` on success |
| CreateBookPage.SubmitFormCorrected | src/pages/CreateBookPage.tsx:32 | the last notice is a success notice exactly when the book was created |

## Left out

- The remote API, and the request library's caching, request coalescing and tag invalidation (`src/redux/`). Each request is one `Call` in the log, and its answer is a parameter. Refetch-after-write is not modelled, because it depends on that library.
- `transformResponse` in `src/redux/features/books/booksApi.ts`: a plain field projection of the list response.
- Rendering, routing, the navigation bar, the footer, the layout and the borrow summary page. These are view code only. The home page component is not routed, but it is modelled as written.
- Side effects are values: `toast`, `navigate`, `confirm` and the awaited request are not executed. Asynchronous scheduling, disabled-while-pending buttons and loading indicators are absent.
- The dialogs' open state (`openDialog`, `borrowBookId`, `onOpenChange`) is kept as fields, but only the edit and add clicks change it.
- The search input and the sort select are not modelled as change handlers. The list is a function of the page's `search` and `sortBy` fields.
- Text.ToLower: lower-cases ASCII letters only, not the full Unicode case mapping of `toLowerCase`.
- BookList.SortBooks: models the library `sort` as one particular stable sort. The collation is an abstract parameter.
- HomePage.SortInPlace: sets the array to the sorted sequence. It does not model the library's own in-place algorithm.
- BorrowBookForm.BorrowBookForm.SetQuantity: takes an integer. `Number(...)` can also yield NaN or a fraction, and both pass the range check (a quantity of 1.5 against two copies is sent); neither is modelled.
- Native HTML constraint validation is not modelled: the `required` due date and quantity inputs and the quantity's `min`/`max` (src/components/modules/borrow/BorrowBookForm.tsx:54-58, 69), and the copies input's `min={0}` (src/components/modules/books/BookForm.tsx:103). The browser would stop such a form before its submit handler runs. In the model every submission reaches the handler, so the handler's own checks are the ones proved.
- Copies and quantities are unbounded integers. The number input's `valueAsNumber` NaN for an empty field, fractional values, and floating-point limits are not modelled.
- Text.IntToString: renders every integer in plain decimal digits. A template string renders a number of magnitude 1e21 or more in exponent form, which is not modelled.
- An `initial` record whose key is present but set to `undefined` is treated as if the key were absent. Extra fields of a server record that the spread would carry into the form values are not modelled.

## Findings

| source | as written | input that shows it | evidently intended | confidence | as-written member | corrected member |
|---|---|---|---|---|---|---|
| src/pages/CreateBookPage.tsx:10-24 | `handleSubmit` resolves to nothing. The book form then reads `res.success` of `undefined` (src/components/modules/books/BookForm.tsx:55). That throws inside the `try`, so the form shows "Failed to save book. Please try again." | any form with title, author, genre and ISBN filled, where the add request succeeds: the page navigates to "/books" and shows the failure notice | resolve to a `{ success, message }` envelope, as the `onSubmit` type requires, so that a created book gets a success notice | high; not executed | CreateBookPage.SubmitForm | CreateBookPage.SubmitFormCorrected |
