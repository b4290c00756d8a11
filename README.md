# Field validators of the Author and Post records

This project models the validation logic of a small blogging back end. Two
persisted records, Author and Post, are declared in `server/models.py`. Each
validated field runs a validator whenever it is assigned. The validator either
returns the value unchanged or raises `ValueError` with a fixed message:

- Author `name`: must not be empty or whitespace-only ("required"), and must not
  already be held by a stored Author ("must be unique"), checked in that order.
- Author `phone_number`: exactly 10 characters, all decimal digits.
- Post `content`: at least 250 characters.
- Post `summary`: at most 250 characters.
- Post `category`: exactly `"Fiction"` or `"Non-Fiction"`.
- Post `title`: contains, case-sensitively, one of `"Won't Believe"`, `"Secret"`,
  `"Top"` or `"Guess"`.

Modules:

- `Text` (text.dfy): Python's `str.strip()`, `str.isdigit()` and substring
  test `sub in s`. `strip()` is stated by what it keeps and what it removes, and
  the substring search is proved equal to a reference definition. `str.isdigit()`
  is the predicate `IsDigitString`, a helper of `ValidatePhoneNumber` whose
  contract spells the digit condition out.
- `Validation` (validation.dfy): `Result<T> = Ok(value) | Err(error)`. The seven
  error kinds carry the source's exact messages (`ValidationError.Message`), and
  no two kinds share a message.
- `AuthorValidators` (author.dfy): `validate_name` and `validate_phone_number`.
  The database lookup is replaced by the sequence of names already stored. The
  lemmas show that a table whose names pass through `validate_name` keeps them
  distinct and non-blank.
- `PostValidators` (post.dfy): the four Post validators.
- `AuthorStore` (author_store.dfy): the `authors` table as a class whose
  `names` field is updated in place. Creating or renaming an author stores the
  name only when `validate_name` accepts it. The class invariant is that the
  stored names are distinct (the `unique=True` constraint on `authors.name`)
  and non-blank (the "required" check).

## Model

| member | source | states |
|---|---|---|
| Validation.MessageIdentifiesError | server/models.py:18-74 | the seven ValueError messages of lines 18, 23, 31, 53, 60, 67 and 74 are pairwise different, so each names the one check that failed |
| Text.StripLeft | server/models.py:17 | the result is a suffix of the input, everything removed before it is whitespace, and it is empty or starts with a non-whitespace character |
| Text.StripRight | server/models.py:17 | the result is a prefix of the input, everything removed after it is whitespace, and it is empty or ends with a non-whitespace character |
| Text.Strip | server/models.py:17 | `name.strip()` is a contiguous piece of the name with no whitespace at either end, and everything before and after it is whitespace |
| Text.StripLeftEmptyIff | server/models.py:17 | stripping leading whitespace leaves nothing exactly when every character is whitespace |
| Text.StripRightEmptyIff | server/models.py:17 | stripping trailing whitespace leaves nothing exactly when every character is whitespace |
| Text.StripEmptyIff | server/models.py:17 | `name.strip() == ""` holds exactly when the name is whitespace-only, the empty name included |
| Text.Contains | server/models.py:73 | a successful substring search implies the phrase is no longer than the title |
| Text.ContainsIffOccurs | server/models.py:73 | the search finds the phrase exactly when it occurs at some position as a contiguous piece, in both directions |
| Text.FirstCharAbsent | server/models.py:73 | a phrase whose first character appears nowhere in the title is not contained in it |
| AuthorValidators.ValidateName | server/models.py:15-25 | rejects with NameRequired exactly when the name is whitespace-only, whatever is stored; rejects with NameNotUnique exactly when it is not blank and already stored; otherwise returns the name unchanged |
| AuthorValidators.ValidatePhoneNumber | server/models.py:28-32 | accepts exactly the 10-character all-digit strings and returns them unchanged; every other string gets BadPhone |
| AuthorValidators.AcceptedNameKeepsTable | server/models.py:21-25 | adding a name that validate_name accepted to a table of distinct, non-blank names keeps it so (the unique=True column of line 9) |
| AuthorValidators.RenamedKeepsTable | server/models.py:21-25 | re-assigning one stored author a name that validate_name accepted keeps the names distinct and non-blank |
| AuthorValidators.StoredNameRejected | server/models.py:21-23 | every stored name is rejected as not unique, even when it is re-assigned to the author that already holds it |
| AuthorValidators.RequiredBeforeUnique | server/models.py:17-23 | a stored name is always rejected, and the error is "required" rather than "must be unique" exactly when the name strips to "" |
| AuthorValidators.JaneDoeScenario | server/models.py:15-32 | "Jane Doe" with phone "5551234567" is accepted by an empty table; "Jane Doe" is then rejected as not unique |
| PostValidators.ValidateContent | server/models.py:51-54 | accepts exactly the contents of at least 250 characters and returns them unchanged; shorter ones, the empty one included, get ContentTooShort |
| PostValidators.ValidateSummary | server/models.py:58-61 | accepts exactly the summaries of at most 250 characters, the empty one included, and returns them unchanged; longer ones get SummaryTooLong |
| PostValidators.ValidateCategory | server/models.py:65-68 | accepts exactly the two literals "Fiction" and "Non-Fiction" and returns them unchanged; everything else gets BadCategory |
| PostValidators.AnyPhraseIn | server/models.py:73 | `any(...)` over the phrases is false on an empty list of phrases |
| PostValidators.AnyPhraseInIff | server/models.py:73 | `any(keyword in title for keyword in phrases)` holds exactly when some phrase of the list is contained in the title |
| PostValidators.ValidateTitle | server/models.py:72-75 | accepts a title exactly when "Won't Believe", "Secret", "Top" or "Guess" occurs in it as a contiguous piece, and returns it unchanged; otherwise NotClickbait |
| PostValidators.ContentAndSummaryMeetAt250 | server/models.py:51-61 | a string is both valid content and a valid summary exactly when it has 250 characters |
| PostValidators.CategoryIsCaseSensitive | server/models.py:66-68 | "fiction", "FICTION", "Non-fiction" and "Nonfiction" are rejected |
| PostValidators.ValidPostScenario | server/models.py:51-75 | title "Top 10 Secrets", category "Fiction", 260 characters of content and a 100-character summary all pass |
| PostValidators.NonClickbaitTitlesRejected | server/models.py:72-75 | the titles "A Normal Day" and "top secret guess" are rejected: the second holds the phrases only in lower case, and matching is case-sensitive |
| PostValidators.RejectedWhenNoPhraseStarts | server/models.py:73-74 | a title that lacks 'W', 'S', 'T' and 'G' is rejected |
| AuthorStore.AuthorTable.constructor | server/models.py:9 | an empty authors table satisfies the uniqueness invariant |
| AuthorStore.AuthorTable.Create | server/models.py:9-25 | the result is validate_name's against the stored names; the name is appended only on acceptance; the names stay distinct and non-blank |
| AuthorStore.AuthorTable.Rename | server/models.py:14-25 | re-assigning a stored author's name validates it against every stored row, that author's own included, and replaces it only on acceptance; the names stay distinct and non-blank |
| AuthorStore.JaneDoeTwice | server/models.py:15-25 | creating "Jane Doe" twice through the table accepts the first and rejects the second, leaving one row |

## Left out

- SQLAlchemy setup, the column declarations and `__tablename__` (server/models.py:1-12, 38-47): schema only, no behaviour.
- `created_at`/`updated_at` defaults and `onupdate` (server/models.py:11-12, 46-47): they depend on the wall clock and the database.
- `__repr__` (server/models.py:34-35, 77-78): debugging text only.
- The `@validates` hook that calls a validator on every assignment. The model calls the validators directly. `AuthorTable.Create` and `AuthorTable.Rename` stand for the two assignments of a name.
- The query `Author.query.filter_by(name=name).first()` (server/models.py:21): replaced by the sequence of stored names, compared by exact equality.
- The order in which a constructor's keyword arguments trigger the validators. It is decided by the caller, not by server/models.py, so no combined "create a Post" operation is modelled.
- The race between the uniqueness check and the insert: a concurrency issue outside this sequential model.
- `None` values: every input is a string. With `None`, `validate_name`, `validate_content` and `validate_category` raise their own `ValueError` (`not None` is true, and `None` is not an allowed category). `validate_phone_number`, `validate_summary` and `validate_title` raise `TypeError` from `len(None)` or `in None`.
- AuthorValidators.ValidateName: whitespace is the ASCII set Python's `str.strip()` removes (tab, line feed, vertical tab, form feed, carriage return, 0x1C-0x1F, space). Non-ASCII Unicode whitespace such as U+00A0 is not modelled.
- AuthorValidators.ValidatePhoneNumber: digits are '0'..'9'. The other Unicode characters Python's `str.isdigit()` accepts (for example superscript or Arabic-Indic digits) are not modelled.
- Lengths count Unicode scalar values, as Python's `len` counts code points. Lone surrogates, which Python strings may hold, are not modelled.
